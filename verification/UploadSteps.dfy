/** Every step of the streamed-upload protocol keeps its invariant and never takes back an answer. */
module UploadSteps {
  import opened Wrappers
  import opened UploadReader
  import opened UploadSystem
  import opened UploadInvariant

  // ---------------------------------------------------------------- frames

  /** Only call `c` moved. */
  ghost predicate Stepped(s: State, t: State, c: nat) {
    && c < |s.calls| && !s.calls[c].phase.Returned?
    && |t.calls| == |s.calls|
    && t.calls == s.calls[c := Call(s.calls[c].request, t.calls[c].phase)]
  }

  ghost predicate ConcernsOnly(p: Phase, k: nat) {
    StreamOf(p).Some? ==> StreamOf(p).value == k
  }

  /** Nothing outside stream `k` and call `c` is different. */
  ghost predicate Elsewhere(s: State, t: State, c: nat, k: nat) {
    && Stepped(s, t, c) && Grows(s, t)
    && ConcernsOnly(s.calls[c].phase, k) && ConcernsOnly(t.calls[c].phase, k)
    && (forall j | 0 <= j < |s.table| && j != k :: t.table[j] == s.table[j])
    && (forall id | id in t.progress && id !in s.progress ::
          (k < |s.table| && s.table[k].id == Some(id)) || IssuedTo(s, id, c))
    && (forall id | (id in s.streams) != (id in t.streams) :: k < |s.table| && s.table[k].id == Some(id))
  }

  /** Two streams never share an id. */
  lemma UniqueId(s: State, j: nat, k: nat)
    requires j < |s.table| && k < |s.table| && Roles(s, j) && Roles(s, k)
    requires s.table[j].id.Some? && s.table[j].id == s.table[k].id
    ensures j == k
  {
    assert s.table[j].opener == s.table[k].opener;
  }

  /** A call between two steps is the opener of no stream but the one it works on. */
  lemma OpenerElsewhere(s: State, c: nat, k: nat, j: nat)
    requires c < |s.calls| && !s.calls[c].phase.Returned? && ConcernsOnly(s.calls[c].phase, k)
    requires j < |s.table| && j != k && Roles(s, j)
    ensures s.table[j].opener != c
  {
  }

  lemma StreamsElsewhere(s: State, t: State, c: nat, k: nat)
    requires Inv(s) && Elsewhere(s, t, c, k)
    ensures forall j | 0 <= j < |s.table| && j != k :: StreamInv(t, j)
  {
    forall j | 0 <= j < |s.table| && j != k
      ensures StreamInv(t, j)
    {
      assert StreamInv(s, j);
      OpenerElsewhere(s, c, k, j);
      CountsElsewhere(s, t, c, k, j);
      RolesElsewhere(s, t, c, k, j);
      LogElsewhere(s, t, c, j);
    }
  }

  lemma CountsElsewhere(s: State, t: State, c: nat, k: nat, j: nat)
    requires Elsewhere(s, t, c, k) && j < |s.table| && j != k && Counts(s, j)
    ensures Counts(t, j)
  {
    SumsUpdate(s.calls, c, t.calls[c], j);
  }

  lemma RolesElsewhere(s: State, t: State, c: nat, k: nat, j: nat)
    requires Inv(s) && Elsewhere(s, t, c, k) && j < |s.table| && j != k
    requires s.table[j].opener != c
    ensures Roles(t, j)
  {
    assert StreamInv(s, j);
    if s.table[j].id.Some? {
      var id := s.table[j].id.value;
      assert IssuedTo(s, id, s.table[j].opener);
      if k < |s.table| && s.table[k].id == Some(id) {
        assert StreamInv(s, k);
        UniqueId(s, j, k);
      }
    }
  }

  /** The log of a stream that did not change stays good, as an accepted chunk stays accepted. */
  lemma LogElsewhere(s: State, t: State, c: nat, j: nat)
    requires Stepped(s, t, c) && Grows(s, t) && j < |s.table| && LogInv(s, j)
    requires t.table[j].log == s.table[j].log
    requires Delivered(s.calls[c].phase, j) ==> Delivered(t.calls[c].phase, j)
    ensures LogInv(t, j)
  {
    assert Evolves(s.table[j], t.table[j]);
    var log := t.table[j].log;
    forall i {:trigger log[i]} | 0 <= i < |log|
      ensures log[i].call < |t.calls|
      ensures OnStream(t, j, t.calls[log[i].call].request)
      ensures t.calls[log[i].call].request.bytes == log[i].bytes
      ensures Delivered(t.calls[log[i].call].phase, j)
    {
      assert s.table[j].log[i] == log[i];
    }
  }

  lemma CallsElsewhere(s: State, t: State, c: nat)
    requires Inv(s) && Stepped(s, t, c) && Grows(s, t)
    ensures forall d | 0 <= d < |t.calls| && d != c :: CallInv(t, d)
  {
    forall d | 0 <= d < |t.calls| && d != c
      ensures CallInv(t, d)
    {
      CallInvGrows(s, t, d);
    }
  }

  /** What the registry already lists stays well listed. */
  lemma RegistryElsewhere(s: State, t: State, c: nat)
    requires Inv(s) && Stepped(s, t, c) && Grows(s, t)
    requires s.calls[c].phase.BeginListed? ==> t.calls[c].phase == Returned(Id(s.calls[c].phase.id))
    ensures forall n | 0 <= n < |s.issued| :: t.issued[n] < |t.calls|
    ensures forall id | id in s.progress :: ProgressOk(t, id)
    ensures forall h | h in s.uploads :: UploadOk(t, h)
  {
    forall id | id in s.progress
      ensures ProgressOk(t, id)
    {
      assert ProgressOk(s, id);
      if s.progress[id].OfStream? {
        assert Evolves(s.table[s.progress[id].stream], t.table[s.progress[id].stream]);
      }
    }
    forall h | h in s.uploads
      ensures UploadOk(t, h)
    {
      assert UploadOk(s, h);
    }
  }

  /** The streams still listed are well listed when the finishers of listed streams did not change. */
  lemma ListingsElsewhere(s: State, t: State, k: nat)
    requires Inv(s) && Grows(s, t)
    requires forall j | 0 <= j < |s.table| && j != k :: t.table[j] == s.table[j]
    requires k < |s.table| ==> t.table[k].finisher == s.table[k].finisher
    requires t.streams == s.streams
    ensures forall id | id in t.streams :: StreamOk(t, id)
  {
    forall id | id in t.streams
      ensures StreamOk(t, id)
    {
      assert StreamOk(s, id);
      assert Evolves(s.table[s.streams[id]], t.table[s.streams[id]]);
    }
  }

  lemma FreshId(s: State)
    requires Inv(s) && |s.issued| < TWO_64
    ensures var id := HandleAt(|s.issued|); id !in s.progress && id !in s.streams && id !in s.uploads
  {
    var id := HandleAt(|s.issued|);
    DrawOfHandle(|s.issued|);
    assert id in s.progress ==> ProgressOk(s, id);
    assert id in s.streams ==> StreamOk(s, id);
    assert id in s.uploads ==> UploadOk(s, id);
  }

  /** Putting the pieces of a step together. */
  lemma Assemble(s: State, t: State, c: nat, k: nat)
    requires Inv(s) && Elsewhere(s, t, c, k)
    requires s.calls[c].phase.BeginListed? ==> t.calls[c].phase == Returned(Id(s.calls[c].phase.id))
    requires |t.table| == |s.table|
    requires k < |s.table| ==> StreamInv(t, k)
    requires CallInv(t, c)
    requires |t.issued| <= TWO_64
    requires forall n | |s.issued| <= n < |t.issued| :: t.issued[n] < |t.calls|
    requires forall id | id in t.streams :: StreamOk(t, id)
    requires forall id | id in t.progress && id !in s.progress :: ProgressOk(t, id)
    requires forall h | h in t.uploads && h !in s.uploads :: UploadOk(t, h)
    ensures Inv(t)
  {
    StreamsElsewhere(s, t, c, k);
    CallsElsewhere(s, t, c);
    RegistryElsewhere(s, t, c);
  }

  /** A step that leaves the registry, the counter and every finisher alone. */
  lemma AssembleQuiet(s: State, t: State, c: nat, k: nat)
    requires Inv(s) && Stepped(s, t, c) && Grows(s, t)
    requires ConcernsOnly(s.calls[c].phase, k) && ConcernsOnly(t.calls[c].phase, k)
    requires !s.calls[c].phase.BeginListed?
    requires t == s.(calls := t.calls, table := t.table) && |t.table| == |s.table|
    requires forall j | 0 <= j < |s.table| && j != k :: t.table[j] == s.table[j]
    requires k < |s.table| ==> t.table[k].finisher == s.table[k].finisher && StreamInv(t, k)
    requires CallInv(t, c)
    ensures Inv(t)
  {
    ListingsElsewhere(s, t, k);
    Assemble(s, t, c, k);
  }

  // ---------------------------------------------------------------- steps that touch no stream

  /** The table, the registry and the counter are as they were. */
  ghost predicate OnlyPhase(s: State, t: State, c: nat) {
    Stepped(s, t, c) && t == s.(calls := t.calls)
  }

  lemma OnlyPhaseGrows(s: State, t: State, c: nat)
    requires OnlyPhase(s, t, c)
    ensures Grows(s, t)
  {
  }

  /** A step that only moves its call keeps the invariant when it neither gains nor drops anything. */
  lemma PhaseOnlyStep(s: State, t: State, c: nat, k: nat)
    requires Inv(s) && OnlyPhase(s, t, c)
    requires ConcernsOnly(s.calls[c].phase, k) && ConcernsOnly(t.calls[c].phase, k)
    requires forall j :: Holds(s.calls[c].phase, j) == Holds(t.calls[c].phase, j)
    requires forall j :: Reserved(s.calls[c].phase, j) == Reserved(t.calls[c].phase, j)
    requires !s.calls[c].phase.FinishTaken? && !t.calls[c].phase.FinishTaken?
    requires !s.calls[c].phase.BeginSpawned? && !s.calls[c].phase.BeginNumbered? && !s.calls[c].phase.BeginListed?
    requires forall j :: !Delivered(s.calls[c].phase, j)
    requires CallInv(t, c)
    ensures Inv(t) && Grows(s, t)
  {
    OnlyPhaseGrows(s, t, c);
    if k < |s.table| {
      PhaseOnlyStream(s, t, c, k);
    }
    AssembleQuiet(s, t, c, k);
  }

  lemma PhaseOnlyStream(s: State, t: State, c: nat, k: nat)
    requires Inv(s) && OnlyPhase(s, t, c) && k < |s.table| && Grows(s, t)
    requires Holds(s.calls[c].phase, k) == Holds(t.calls[c].phase, k)
    requires Reserved(s.calls[c].phase, k) == Reserved(t.calls[c].phase, k)
    requires !s.calls[c].phase.FinishTaken? && !t.calls[c].phase.FinishTaken?
    requires !s.calls[c].phase.BeginSpawned? && !s.calls[c].phase.BeginNumbered? && !s.calls[c].phase.BeginListed?
    requires !Delivered(s.calls[c].phase, k)
    ensures StreamInv(t, k)
  {
    assert StreamInv(s, k);
    SumsUpdate(s.calls, c, t.calls[c], k);
    LogElsewhere(s, t, c, k);
    PhaseOnlyRoles(s, t, c, k);
  }

  lemma PhaseOnlyRoles(s: State, t: State, c: nat, k: nat)
    requires OnlyPhase(s, t, c) && k < |s.table| && Roles(s, k)
    requires !s.calls[c].phase.BeginSpawned? && !s.calls[c].phase.BeginNumbered? && !s.calls[c].phase.BeginListed?
    ensures Roles(t, k)
  {
  }

  lemma StepPoll(s: State, c: nat)
    requires Inv(s) && CanAdvance(s, c)
    requires s.calls[c].phase.PollStart? || s.calls[c].phase.PollHolding? || s.calls[c].phase.PollHalf?
    ensures Inv(AdvanceCall(s, c)) && Grows(s, AdvanceCall(s, c))
  {
    PollCallOk(s, c);
    PhaseOnlyStep(s, AdvanceProgress(s, c), c, |s.table|);
  }

  lemma PollCallOk(s: State, c: nat)
    requires Inv(s) && CanAdvance(s, c)
    requires s.calls[c].phase.PollStart? || s.calls[c].phase.PollHolding? || s.calls[c].phase.PollHalf?
    ensures var t := AdvanceProgress(s, c); OnlyPhase(s, t, c) && CallInv(t, c)
  {
    assert CallInv(s, c);
    match s.calls[c].phase
    case PollStart(id) =>
      if id in s.progress {
        assert ProgressOk(s, id);
      }
    case PollHolding(slot) => PollLoadsSent(s, c, slot);
    case PollHalf(slot, sent) => PollLoadsTotal(s, c, slot, sent);
    case _ =>
  }

  lemma PollLoadsSent(s: State, c: nat, slot: Slot)
    requires c < |s.calls| && s.calls[c].phase == PollHolding(slot) && CallInv(s, c)
    requires slot.OfStream? ==> StreamInv(s, slot.stream)
    ensures CallInv(Goto(s, c, PollHalf(slot, if slot.OfStream? then SentOf(s.table[slot.stream].meter) else 0)), c)
  {
    if slot.OfStream? {
      SentIsBounded(s, slot.stream);
    }
  }

  lemma PollLoadsTotal(s: State, c: nat, slot: Slot, sent: nat)
    requires c < |s.calls| && s.calls[c].phase == PollHalf(slot, sent) && CallInv(s, c)
    requires slot.OfStream? ==> StreamInv(s, slot.stream)
    ensures var total := if slot.OfStream? then s.table[slot.stream].meter.total else slot.total;
            CallInv(Goto(s, c, Returned(Snapshot(slot, sent, total))), c)
  {
    if slot.OfStream? {
      assert Metered(s.table[slot.stream]);
    }
  }

  /** What was handed over never exceeds what was accepted, nor that the declared size. */
  lemma DeliveredIsBounded(s: State, k: nat)
    requires k < |s.table| && StreamInv(s, k)
    ensures Safe(s.table[k]) ==>
              && |s.table[k].delivered| <= |LogBytes(s.table[k].log)|
              && |LogBytes(s.table[k].log)| <= s.table[k].accepted <= s.table[k].size
  {
    var st := s.table[k];
    assert |st.delivered| <= |LogBytes(st.log)|;
  }

  /** Nor is more counted, when only the reader counts. */
  lemma SentIsBounded(s: State, k: nat)
    requires k < |s.table| && StreamInv(s, k)
    ensures Safe(s.table[k]) && Alone(s.table[k]) ==>
              && SentOf(s.table[k].meter) + s.table[k].meter.uncounted == |s.table[k].delivered|
              && |s.table[k].delivered| <= s.table[k].size
  {
    DeliveredIsBounded(s, k);
    var st := s.table[k];
    if Safe(st) && Alone(st) {
      assert Metered(st);
      NotWrapped(st.meter);
    }
  }

  lemma NotWrapped(m: Meter)
    requires m.counted < TWO_64
    ensures SentOf(m) == m.counted
  {
  }

  lemma StepFinishWaits(s: State, c: nat)
    requires Inv(s) && CanAdvance(s, c)
    requires s.calls[c].phase.FinishChecking? || s.calls[c].phase.FinishAwaiting?
    ensures Inv(AdvanceCall(s, c)) && Grows(s, AdvanceCall(s, c))
  {
    var t := AdvanceCall(s, c);
    assert CallInv(s, c);
    var k := s.calls[c].phase.stream;
    assert StreamInv(s, k);
    PhaseOnlyStep(s, t, c, k);
  }

  // ---------------------------------------------------------------- begin

  function Opened(s: State, c: nat, size: nat): (t: State)
    requires c < |s.calls|
  {
    Goto(s.(table := s.table + [NewStream(c, size)]), c, BeginSpawned(|s.table|))
  }

  lemma OpenStream(s: State, c: nat, size: nat)
    requires Inv(s) && c < |s.calls| && s.calls[c].phase == BeginStart(size)
    ensures Inv(Opened(s, c, size)) && Grows(s, Opened(s, c, size))
  {
    var t := Opened(s, c, size);
    var k := |s.table|;
    assert CallInv(s, c);
    OpenedGrows(s, c, size);
    OpenedStream(s, c, size);
    StreamsElsewhere(s, t, c, k);
    CallsElsewhere(s, t, c);
    RegistryElsewhere(s, t, c);
    ListingsElsewhere(s, t, k);
  }

  lemma OpenedGrows(s: State, c: nat, size: nat)
    requires c < |s.calls| && !s.calls[c].phase.Returned?
    ensures Grows(s, Opened(s, c, size))
  {
  }

  lemma OpenedStream(s: State, c: nat, size: nat)
    requires Inv(s) && c < |s.calls| && s.calls[c].phase == BeginStart(size)
    requires s.calls[c].request == Begin(size) && size < TWO_64
    ensures StreamInv(Opened(s, c, size), |s.table|)
  {
    NobodyHolds(s, |s.table|);
    SumsUpdate(s.calls, c, s.calls[c].(phase := BeginSpawned(|s.table|)), |s.table|);
  }

  lemma StepBeginStart(s: State, c: nat)
    requires Inv(s) && CanAdvance(s, c) && s.calls[c].phase.BeginStart?
    ensures Inv(AdvanceCall(s, c)) && Grows(s, AdvanceCall(s, c))
  {
    OpenStream(s, c, s.calls[c].phase.size);
  }

  /** No call holds a sender of a stream that does not exist. */
  lemma NobodyHolds(s: State, k: nat)
    requires Inv(s) && k >= |s.table|
    ensures SumHolds(s.calls, k) == 0 && SumReserved(s.calls, k) == 0
  {
    forall c | 0 <= c < |s.calls|
      ensures Holds(s.calls[c].phase, k) == 0
    {
      assert CallInv(s, c);
    }
    SumsZero(s.calls, k);
  }

  function Numbered(s: State, c: nat, k: nat, id: int): (t: State)
    requires c < |s.calls| && k < |s.table|
  {
    Goto(Put(s, k, s.table[k].(id := Some(id))).(issued := s.issued + [c]), c, BeginNumbered(k, id))
  }

  lemma NumberStream(s: State, c: nat, k: nat)
    requires Inv(s) && c < |s.calls| && s.calls[c].phase == BeginSpawned(k) && |s.issued| < TWO_64
    requires k < |s.table|
    ensures var t := Numbered(s, c, k, HandleAt(|s.issued|)); Inv(t) && Grows(s, t)
  {
    var id := HandleAt(|s.issued|);
    var t := Numbered(s, c, k, id);
    assert CallInv(s, c) && StreamInv(s, k);
    FreshId(s);
    DrawOfHandle(|s.issued|);
    NumberedGrows(s, c, k, id);
    NumberedStream(s, c, k, id);
    ListingsElsewhere(s, t, k);
    Assemble(s, t, c, k);
  }

  lemma NumberedGrows(s: State, c: nat, k: nat, id: int)
    requires c < |s.calls| && k < |s.table| && s.table[k].id == None && !s.calls[c].phase.Returned?
    ensures Grows(s, Numbered(s, c, k, id))
  {
  }

  lemma NumberedStream(s: State, c: nat, k: nat, id: int)
    requires c < |s.calls| && s.calls[c].phase == BeginSpawned(k)
    requires k < |s.table| && StreamInv(s, k) && s.table[k].opener == c
    requires id == HandleAt(|s.issued|) && Draw(id) == |s.issued| && id !in s.progress
    ensures StreamInv(Numbered(s, c, k, id), k)
  {
    LoggedStreamHasId(s, k);
    SumsUpdate(s.calls, c, s.calls[c].(phase := BeginNumbered(k, id)), k);
  }

  lemma StepBeginSpawned(s: State, c: nat)
    requires Inv(s) && CanAdvance(s, c) && s.calls[c].phase.BeginSpawned? && |s.issued| < TWO_64
    ensures Inv(AdvanceCall(s, c)) && Grows(s, AdvanceCall(s, c))
  {
    NumberStream(s, c, s.calls[c].phase.stream);
  }

  lemma LoggedStreamHasId(s: State, k: nat)
    requires k < |s.table| && LogInv(s, k)
    ensures s.table[k].log != [] ==> s.table[k].id.Some?
  {
    if s.table[k].log != [] {
      assert OnStream(s, k, s.calls[s.table[k].log[0].call].request);
    }
  }

  function Listed(s: State, c: nat, k: nat, id: int): (t: State)
    requires c < |s.calls|
  {
    Goto(s.(progress := s.progress[id := OfStream(k)]), c, BeginListed(k, id))
  }

  lemma ListProgress(s: State, c: nat, k: nat, id: int)
    requires Inv(s) && c < |s.calls| && s.calls[c].phase == BeginNumbered(k, id) && k < |s.table|
    ensures Inv(Listed(s, c, k, id)) && Grows(s, Listed(s, c, k, id))
  {
    var t := Listed(s, c, k, id);
    assert CallInv(s, c) && StreamInv(s, k);
    assert id in s.streams ==> StreamOk(s, id);
    assert Grows(s, t);
    ListedStream(s, c, k, id);
    ListingsElsewhere(s, t, k);
    assert ProgressOk(t, id);
    Assemble(s, t, c, k);
  }

  lemma ListedStream(s: State, c: nat, k: nat, id: int)
    requires c < |s.calls| && s.calls[c].phase == BeginNumbered(k, id) && k < |s.table| && StreamInv(s, k)
    requires s.table[k].opener == c && id !in s.streams && Grows(s, Listed(s, c, k, id))
    ensures StreamInv(Listed(s, c, k, id), k)
  {
    SumsUpdate(s.calls, c, s.calls[c].(phase := BeginListed(k, id)), k);
    LogElsewhere(s, Listed(s, c, k, id), c, k);
  }

  lemma StepBeginNumbered(s: State, c: nat)
    requires Inv(s) && CanAdvance(s, c) && s.calls[c].phase.BeginNumbered?
    ensures Inv(AdvanceCall(s, c)) && Grows(s, AdvanceCall(s, c))
  {
    ListProgress(s, c, s.calls[c].phase.stream, s.calls[c].phase.id);
  }

  function Offered(s: State, c: nat, k: nat, id: int): (t: State)
    requires c < |s.calls|
  {
    Goto(s.(streams := s.streams[id := k]), c, Returned(Id(id)))
  }

  lemma OfferStream(s: State, c: nat, k: nat, id: int)
    requires Inv(s) && c < |s.calls| && s.calls[c].phase == BeginListed(k, id) && k < |s.table|
    ensures Inv(Offered(s, c, k, id)) && Grows(s, Offered(s, c, k, id))
  {
    var t := Offered(s, c, k, id);
    assert CallInv(s, c) && StreamInv(s, k);
    assert Grows(s, t);
    OfferedStream(s, c, k, id);
    forall i | i in t.streams
      ensures StreamOk(t, i)
    {
      if i != id {
        assert StreamOk(s, i);
      }
    }
    Assemble(s, t, c, k);
  }

  lemma OfferedStream(s: State, c: nat, k: nat, id: int)
    requires c < |s.calls| && s.calls[c].phase == BeginListed(k, id) && k < |s.table| && StreamInv(s, k)
    requires s.table[k].opener == c && Grows(s, Offered(s, c, k, id))
    ensures StreamInv(Offered(s, c, k, id), k)
  {
    SumsUpdate(s.calls, c, s.calls[c].(phase := Returned(Id(id))), k);
    LogElsewhere(s, Offered(s, c, k, id), c, k);
  }

  lemma StepBeginListed(s: State, c: nat)
    requires Inv(s) && CanAdvance(s, c) && s.calls[c].phase.BeginListed?
    ensures Inv(AdvanceCall(s, c)) && Grows(s, AdvanceCall(s, c))
  {
    OfferStream(s, c, s.calls[c].phase.stream, s.calls[c].phase.id);
  }

  // ---------------------------------------------------------------- chunk

  /** A step of a call on a stream whose roles it leaves alone. */
  lemma StreamStep(s: State, c: nat, k: nat, after: Stream, p: Phase)
    requires Inv(s) && c < |s.calls| && k < |s.table|
    requires !s.calls[c].phase.Returned? && !s.calls[c].phase.BeginListed? && !s.calls[c].request.Begin?
    requires ConcernsOnly(s.calls[c].phase, k) && ConcernsOnly(p, k)
    requires after.id == s.table[k].id && after.finisher == s.table[k].finisher
    requires Evolves(s.table[k], after) && Bytes(after)
    requires var t := Goto(Put(s, k, after), c, p); Counts(t, k) && LogInv(t, k) && CallInv(t, c)
    ensures var t := Goto(Put(s, k, after), c, p); Inv(t) && Grows(s, t)
  {
    var t := Goto(Put(s, k, after), c, p);
    PutGrows(s, c, k, after, p);
    PutStepped(s, c, k, after, p);
    assert StreamInv(s, k);
    PutRoles(s, c, k, after, p);
    assert StreamInv(t, k);
    AssembleQuiet(s, t, c, k);
  }

  lemma PutStepped(s: State, c: nat, k: nat, after: Stream, p: Phase)
    requires c < |s.calls| && k < |s.table| && !s.calls[c].phase.Returned?
    ensures var t := Goto(Put(s, k, after), c, p);
            && Stepped(s, t, c) && t.calls[c].phase == p
            && t == s.(calls := t.calls, table := t.table) && |t.table| == |s.table| && t.table[k] == after
            && forall j | 0 <= j < |s.table| && j != k :: t.table[j] == s.table[j]
  {
  }

  lemma PutRoles(s: State, c: nat, k: nat, after: Stream, p: Phase)
    requires c < |s.calls| && k < |s.table| && Roles(s, k)
    requires !s.calls[c].phase.Returned? && !s.calls[c].request.Begin?
    requires after.id == s.table[k].id && after.finisher == s.table[k].finisher && Evolves(s.table[k], after)
    ensures Roles(Goto(Put(s, k, after), c, p), k)
  {
    OpenerIsNot(s, c, k);
  }

  lemma PutGrows(s: State, c: nat, k: nat, after: Stream, p: Phase)
    requires c < |s.calls| && k < |s.table| && !s.calls[c].phase.Returned?
    requires Evolves(s.table[k], after)
    ensures Grows(s, Goto(Put(s, k, after), c, p))
  {
  }

  lemma PutKeepsLog(s: State, c: nat, k: nat, after: Stream, p: Phase)
    requires c < |s.calls| && k < |s.table| && !s.calls[c].phase.Returned? && LogInv(s, k)
    requires Evolves(s.table[k], after) && after.log == s.table[k].log
    requires Delivered(s.calls[c].phase, k) ==> Delivered(p, k)
    ensures LogInv(Goto(Put(s, k, after), c, p), k)
  {
    PutGrows(s, c, k, after, p);
    LogElsewhere(s, Goto(Put(s, k, after), c, p), c, k);
  }

  /** The tallies follow a step that changes the sender count and the accounts as its phases say. */
  lemma PutCounts(s: State, c: nat, k: nat, after: Stream, p: Phase)
    requires c < |s.calls| && k < |s.table| && Counts(s, k)
    requires after.size == s.table[k].size && after.finisher == s.table[k].finisher
    requires p != FinishTaken(k) && (s.calls[c].phase == FinishTaken(k) ==> s.table[k].finisher == Some(c))
    requires after.senders == s.table[k].senders - Holds(s.calls[c].phase, k) + Holds(p, k)
                              - if s.calls[c].phase == FinishTaken(k) then 1 else 0
    requires Safe(after) ==>
               && after.accepted - after.failed - |LogBytes(after.log)| - Reserved(p, k)
                  == s.table[k].accepted - s.table[k].failed - |LogBytes(s.table[k].log)|
                     - Reserved(s.calls[c].phase, k)
               && after.accepted <= after.size
    ensures Counts(Goto(Put(s, k, after), c, p), k)
  {
    SumsUpdate(s.calls, c, s.calls[c].(phase := p), k);
  }

  lemma EnterStream(s: State, c: nat, id: int, bytes: seq<byte>, k: nat)
    requires Inv(s) && c < |s.calls| && s.calls[c].phase == ChunkStart(id, bytes)
    requires id in s.streams && s.streams[id] == k < |s.table|
    ensures var t := Goto(Put(s, k, s.table[k].(senders := s.table[k].senders + 1)), c, ChunkReserving(k, bytes));
            Inv(t) && Grows(s, t)
  {
    assert CallInv(s, c) && StreamOk(s, id) && StreamInv(s, k);
    var after, p := s.table[k].(senders := s.table[k].senders + 1), ChunkReserving(k, bytes);
    PutCounts(s, c, k, after, p);
    PutKeepsLog(s, c, k, after, p);
    assert CallInv(Goto(Put(s, k, after), c, p), c);
    StreamStep(s, c, k, after, p);
  }

  lemma StepChunkStart(s: State, c: nat)
    requires Inv(s) && CanAdvance(s, c) && s.calls[c].phase.ChunkStart?
    ensures Inv(AdvanceCall(s, c)) && Grows(s, AdvanceCall(s, c))
  {
    var id := s.calls[c].phase.id;
    if id in s.streams {
      assert StreamOk(s, id);
      EnterStream(s, c, id, s.calls[c].phase.bytes, s.streams[id]);
    } else {
      RefuseChunk(s, c);
    }
  }

  lemma RefuseChunk(s: State, c: nat)
    requires Inv(s) && c < |s.calls| && s.calls[c].phase.ChunkStart?
    ensures var t := Goto(s, c, Returned(Refused(UnknownStream))); Inv(t) && Grows(s, t)
  {
    assert CallInv(s, c);
    PhaseOnlyStep(s, Goto(s, c, Returned(Refused(UnknownStream))), c, |s.table|);
  }

  lemma OpenerIsNot(s: State, c: nat, k: nat)
    requires c < |s.calls| && !s.calls[c].phase.Returned? && k < |s.table| && Roles(s, k)
    requires !s.calls[c].request.Begin?
    ensures s.table[k].opener != c
  {
  }

  lemma ReserveIsExact(current: nat, length: nat, size: nat)
    requires current <= size && Fits(size) && length <= LONGEST
    ensures Reserve(current, length, size) == if current + length <= size then Some(current + length) else None
  {
  }

  lemma ReserveBytes(s: State, c: nat, k: nat, bytes: seq<byte>, sum: nat)
    requires Inv(s) && c < |s.calls| && s.calls[c].phase == ChunkReserving(k, bytes)
    requires k < |s.table| && Reserve(s.table[k].accepted, |bytes|, s.table[k].size) == Some(sum)
    ensures var t := Goto(Put(s, k, s.table[k].(accepted := sum)), c, ChunkSending(k, bytes)); Inv(t) && Grows(s, t)
  {
    assert CallInv(s, c) && StreamInv(s, k);
    var after, p := s.table[k].(accepted := sum), ChunkSending(k, bytes);
    AcceptedEvolves(s.table[k], |bytes|, sum);
    PutCounts(s, c, k, after, p);
    PutKeepsLog(s, c, k, after, p);
    assert CallInv(Goto(Put(s, k, after), c, p), c);
    StreamStep(s, c, k, after, p);
  }

  lemma AcceptedEvolves(st: Stream, length: nat, sum: nat)
    requires Bytes(st) && length <= LONGEST && Reserve(st.accepted, length, st.size) == Some(sum)
    requires Safe(st) ==> st.accepted <= st.size
    ensures Bytes(st.(accepted := sum))
    ensures Safe(st) ==> sum == st.accepted + length <= st.size
    ensures length > 0 ==> Evolves(st, st.(accepted := sum))
  {
    if Safe(st) {
      ReserveIsExact(st.accepted, length, st.size);
    }
  }

  lemma RefuseTooMany(s: State, c: nat, k: nat, bytes: seq<byte>)
    requires Inv(s) && c < |s.calls| && s.calls[c].phase == ChunkReserving(k, bytes)
    requires k < |s.table| && Reserve(s.table[k].accepted, |bytes|, s.table[k].size) == None
    ensures var t := Goto(s, c, ChunkLeaving(k, Refused(TooManyBytes(k)))); Inv(t) && Grows(s, t)
  {
    assert CallInv(s, c) && StreamInv(s, k);
    if Safe(s.table[k]) {
      ReserveIsExact(s.table[k].accepted, |bytes|, s.table[k].size);
    }
    PhaseOnlyStep(s, Goto(s, c, ChunkLeaving(k, Refused(TooManyBytes(k)))), c, k);
  }

  lemma StepChunkReserving(s: State, c: nat)
    requires Inv(s) && CanAdvance(s, c) && s.calls[c].phase.ChunkReserving?
    ensures Inv(AdvanceCall(s, c)) && Grows(s, AdvanceCall(s, c))
  {
    var k := s.calls[c].phase.stream;
    var bytes := s.calls[c].phase.bytes;
    match Reserve(s.table[k].accepted, |bytes|, s.table[k].size)
    case Some(sum) => ReserveBytes(s, c, k, bytes, sum);
    case None => RefuseTooMany(s, c, k, bytes);
  }

  lemma SendToTask(s: State, c: nat, k: nat, bytes: seq<byte>)
    requires Inv(s) && c < |s.calls| && s.calls[c].phase == ChunkSending(k, bytes)
    requires k < |s.table| && s.table[k].task.Running? && |s.table[k].source.queue| < CAPACITY
    ensures var t := Goto(Put(s, k, Enqueued(s.table[k], Sent(c, bytes))), c, ChunkLeaving(k, Accepted(k)));
            Inv(t) && Grows(s, t)
  {
    assert CallInv(s, c) && StreamInv(s, k);
    var st := s.table[k];
    var after, p := Enqueued(st, Sent(c, bytes)), ChunkLeaving(k, Accepted(k));
    EnqueueKeepsBytes(st, Sent(c, bytes));
    PutCounts(s, c, k, after, p);
    SendKeepsLog(s, c, k);
    SentIsAccepted(s, c, k, bytes);
    StreamStep(s, c, k, after, p);
  }

  lemma SentIsAccepted(s: State, c: nat, k: nat, bytes: seq<byte>)
    requires c < |s.calls| && s.calls[c].phase == ChunkSending(k, bytes) && CallInv(s, c) && k < |s.table|
    ensures var t := Goto(Put(s, k, Enqueued(s.table[k], Sent(c, bytes))), c, ChunkLeaving(k, Accepted(k)));
            CallInv(t, c)
  {
    assert Enqueued(s.table[k], Sent(c, bytes)).log[|s.table[k].log|].call == c;
  }

  lemma SendToNobody(s: State, c: nat, k: nat, bytes: seq<byte>)
    requires Inv(s) && c < |s.calls| && s.calls[c].phase == ChunkSending(k, bytes)
    requires k < |s.table| && !s.table[k].task.Running?
    ensures var t := Goto(Put(s, k, s.table[k].(failed := s.table[k].failed + |bytes|)), c,
                          ChunkLeaving(k, Refused(NotAccepting(k))));
            Inv(t) && Grows(s, t)
  {
    assert CallInv(s, c) && StreamInv(s, k);
    var after, p := s.table[k].(failed := s.table[k].failed + |bytes|), ChunkLeaving(k, Refused(NotAccepting(k)));
    PutCounts(s, c, k, after, p);
    PutKeepsLog(s, c, k, after, p);
    assert CallInv(Goto(Put(s, k, after), c, p), c);
    StreamStep(s, c, k, after, p);
  }

  lemma StepChunkSending(s: State, c: nat)
    requires Inv(s) && CanAdvance(s, c) && s.calls[c].phase.ChunkSending?
    ensures Inv(AdvanceCall(s, c)) && Grows(s, AdvanceCall(s, c))
  {
    var k := s.calls[c].phase.stream;
    if s.table[k].task.Running? {
      SendToTask(s, c, k, s.calls[c].phase.bytes);
    } else {
      SendToNobody(s, c, k, s.calls[c].phase.bytes);
    }
  }

  /** A chunk that is sent is new to the log, and is at its end. */
  lemma SendKeepsLog(s: State, c: nat, k: nat)
    requires c < |s.calls| && k < |s.table| && LogInv(s, k)
    requires s.calls[c].phase.ChunkSending? && OnStream(s, k, s.calls[c].request)
    ensures LogInv(Goto(Put(s, k, Enqueued(s.table[k], Sent(c, s.calls[c].request.bytes))), c,
                        ChunkLeaving(k, Accepted(k))), k)
  {
    var t := Goto(Put(s, k, Enqueued(s.table[k], Sent(c, s.calls[c].request.bytes))), c,
                  ChunkLeaving(k, Accepted(k)));
    var log, longer := s.table[k].log, t.table[k].log;
    forall i {:trigger longer[i]} | 0 <= i < |longer|
      ensures longer[i].call < |t.calls|
      ensures OnStream(t, k, t.calls[longer[i].call].request)
      ensures t.calls[longer[i].call].request.bytes == longer[i].bytes
      ensures Delivered(t.calls[longer[i].call].phase, k)
      ensures i < |log| ==> longer[i].call != c
    {
      if i < |log| {
        assert longer[i] == log[i];
      }
    }
    forall i, j {:trigger longer[i], longer[j]} | 0 <= i < j < |longer|
      ensures longer[i].call != longer[j].call
    {
      assert longer[i] == log[i];
      if j < |log| {
        assert longer[j] == log[j];
      }
    }
  }

  lemma EnqueueKeepsBytes(st: Stream, entry: Sent)
    requires Bytes(st) && st.task.Running? && |st.source.queue| < CAPACITY && entry.bytes != []
    ensures Bytes(Enqueued(st, entry))
    ensures LogBytes(st.log + [entry]) == LogBytes(st.log) + entry.bytes
  {
    assert (st.log + [entry])[..|st.log|] == st.log;
    FlattenSnoc(st.source.queue, entry.bytes);
    ConcatAssociates(Retained(st.source), Flatten(st.source.queue), entry.bytes);
    assert Contents(Enqueued(st, entry).source) == Contents(st.source) + entry.bytes;
    ConcatAssociates(st.delivered, Contents(st.source), entry.bytes);
  }

  lemma DropClone(s: State, c: nat, k: nat, outcome: Outcome)
    requires Inv(s) && c < |s.calls| && s.calls[c].phase == ChunkLeaving(k, outcome)
    requires k < |s.table| && s.table[k].senders > 0
    ensures var t := Goto(Put(s, k, s.table[k].(senders := s.table[k].senders - 1)), c, Returned(outcome));
            Inv(t) && Grows(s, t)
  {
    assert CallInv(s, c) && StreamInv(s, k);
    var after, p := s.table[k].(senders := s.table[k].senders - 1), Returned(outcome);
    PutCounts(s, c, k, after, p);
    PutKeepsLog(s, c, k, after, p);
    LeavingReturns(s, c, k, after, outcome);
    StreamStep(s, c, k, after, p);
  }

  lemma LeavingReturns(s: State, c: nat, k: nat, after: Stream, outcome: Outcome)
    requires c < |s.calls| && s.calls[c].phase == ChunkLeaving(k, outcome) && CallInv(s, c)
    requires k < |s.table| && after == s.table[k].(senders := after.senders)
    ensures CallInv(Goto(Put(s, k, after), c, Returned(outcome)), c)
  {
  }

  lemma StepChunkLeaving(s: State, c: nat)
    requires Inv(s) && CanAdvance(s, c) && s.calls[c].phase.ChunkLeaving?
    ensures Inv(AdvanceCall(s, c)) && Grows(s, AdvanceCall(s, c))
  {
    DropClone(s, c, s.calls[c].phase.stream, s.calls[c].phase.outcome);
  }

  // ---------------------------------------------------------------- finish

  function Taken(s: State, c: nat, id: int): (t: State)
    requires c < |s.calls| && id in s.streams && s.streams[id] < |s.table|
  {
    var k := s.streams[id];
    Goto(Put(s, k, s.table[k].(finisher := Some(c))).(streams := s.streams - {id}), c, FinishTaken(k))
  }

  lemma TakeStream(s: State, c: nat, id: int, k: nat)
    requires Inv(s) && c < |s.calls| && s.calls[c].phase == FinishStart(id)
    requires id in s.streams && s.streams[id] == k < |s.table|
    ensures Inv(Taken(s, c, id)) && Grows(s, Taken(s, c, id))
  {
    var t := Taken(s, c, id);
    assert CallInv(s, c) && StreamOk(s, id) && StreamInv(s, k);
    TakenGrows(s, c, id, k);
    TakenStream(s, c, id, k);
    forall i | i in t.streams
      ensures StreamOk(t, i)
    {
      assert StreamOk(s, i);
    }
    Assemble(s, t, c, k);
  }

  lemma TakenGrows(s: State, c: nat, id: int, k: nat)
    requires c < |s.calls| && !s.calls[c].phase.Returned?
    requires id in s.streams && s.streams[id] == k < |s.table| && s.table[k].finisher == None
    ensures Grows(s, Taken(s, c, id))
  {
  }

  lemma TakenStream(s: State, c: nat, id: int, k: nat)
    requires c < |s.calls| && s.calls[c].phase == FinishStart(id) && CallInv(s, c)
    requires id in s.streams && s.streams[id] == k < |s.table| && StreamInv(s, k)
    requires StreamOk(s, id)
    ensures StreamInv(Taken(s, c, id), k)
  {
    var t := Taken(s, c, id);
    OpenerIsNot(s, c, k);
    SumsUpdate(s.calls, c, t.calls[c], k);
    TakenGrows(s, c, id, k);
    LogElsewhere(s, t, c, k);
    assert Counts(t, k);
    assert Roles(t, k);
  }

  lemma StepFinishStart(s: State, c: nat)
    requires Inv(s) && CanAdvance(s, c) && s.calls[c].phase.FinishStart?
    ensures Inv(AdvanceCall(s, c)) && Grows(s, AdvanceCall(s, c))
  {
    var id := s.calls[c].phase.id;
    if id in s.streams {
      TakeStream(s, c, id, s.streams[id]);
    } else {
      assert CallInv(s, c);
      PhaseOnlyStep(s, AdvanceCall(s, c), c, |s.table|);
    }
  }

  lemma DropOwnSender(s: State, c: nat, k: nat)
    requires Inv(s) && c < |s.calls| && s.calls[c].phase == FinishTaken(k)
    requires k < |s.table| && s.table[k].senders > 0
    ensures var t := Goto(Put(s, k, s.table[k].(senders := s.table[k].senders - 1)), c, FinishChecking(k));
            Inv(t) && Grows(s, t)
  {
    assert CallInv(s, c) && StreamInv(s, k);
    var after, p := s.table[k].(senders := s.table[k].senders - 1), FinishChecking(k);
    PutCounts(s, c, k, after, p);
    PutKeepsLog(s, c, k, after, p);
    assert CallInv(Goto(Put(s, k, after), c, p), c);
    StreamStep(s, c, k, after, p);
  }

  lemma StepFinishTaken(s: State, c: nat)
    requires Inv(s) && CanAdvance(s, c) && s.calls[c].phase.FinishTaken?
    ensures Inv(AdvanceCall(s, c)) && Grows(s, AdvanceCall(s, c))
  {
    DropOwnSender(s, c, s.calls[c].phase.stream);
  }

  /** A finishing call's steps on the registry leave the streams as they are. */
  lemma FinishedStreamKept(s: State, t: State, c: nat, k: nat)
    requires Inv(s) && Stepped(s, t, c) && Grows(s, t) && k < |s.table|
    requires t.table == s.table && t.streams == s.streams && t.progress == s.progress
    requires s.calls[c].request.Finish? && !s.calls[c].phase.FinishTaken? && !t.calls[c].phase.FinishTaken?
    requires Holds(s.calls[c].phase, k) == Holds(t.calls[c].phase, k) == 0
    requires Reserved(s.calls[c].phase, k) == Reserved(t.calls[c].phase, k) == 0
    requires !Delivered(s.calls[c].phase, k)
    ensures StreamInv(t, k)
  {
    assert StreamInv(s, k);
    SumsUpdate(s.calls, c, t.calls[c], k);
    OpenerIsNot(s, c, k);
    LogElsewhere(s, t, c, k);
    assert Counts(t, k);
    assert Roles(t, k);
  }

  lemma StepFinishRegistering(s: State, c: nat)
    requires Inv(s) && CanAdvance(s, c) && s.calls[c].phase.FinishRegistering? && |s.issued| < TWO_64
    ensures Inv(AdvanceCall(s, c)) && Grows(s, AdvanceCall(s, c))
  {
    var t := AdvanceCall(s, c);
    var k := s.calls[c].phase.stream;
    assert CallInv(s, c);
    DrawOfHandle(|s.issued|);
    assert Grows(s, t);
    FinishedStreamKept(s, t, c, k);
    ListingsElsewhere(s, t, k);
    Assemble(s, t, c, k);
  }

  lemma StepFinishNumbered(s: State, c: nat)
    requires Inv(s) && CanAdvance(s, c) && s.calls[c].phase.FinishNumbered?
    ensures Inv(AdvanceCall(s, c)) && Grows(s, AdvanceCall(s, c))
  {
    var p := s.calls[c].phase;
    assert CallInv(s, c);
    RegisterUpload(s, c, p.stream, p.content, p.handle);
  }

  function Registered(s: State, c: nat, k: nat, content: seq<byte>, h: int): (t: State)
    requires c < |s.calls|
  {
    Goto(s.(uploads := s.uploads[h := Uploaded(k, content)]), c, Returned(Handle(h)))
  }

  lemma RegisterUpload(s: State, c: nat, k: nat, content: seq<byte>, h: int)
    requires Inv(s) && c < |s.calls| && s.calls[c].phase == FinishNumbered(k, content, h)
    ensures Inv(Registered(s, c, k, content, h)) && Grows(s, Registered(s, c, k, content, h))
  {
    var t := Registered(s, c, k, content, h);
    assert CallInv(s, c);
    assert h in s.uploads ==> UploadOk(s, h);
    RegisteredGrows(s, c, k, content, h);
    FinishedStreamKept(s, t, c, k);
    ListingsElsewhere(s, t, k);
    Assemble(s, t, c, k);
  }

  lemma RegisteredGrows(s: State, c: nat, k: nat, content: seq<byte>, h: int)
    requires c < |s.calls| && !s.calls[c].phase.Returned? && h !in s.uploads
    ensures Grows(s, Registered(s, c, k, content, h))
  {
  }

  // ---------------------------------------------------------------- path upload slots

  lemma StepSlotStart(s: State, c: nat)
    requires Inv(s) && CanAdvance(s, c) && s.calls[c].phase.SlotStart? && |s.issued| < TWO_64
    ensures Inv(AdvanceCall(s, c)) && Grows(s, AdvanceCall(s, c))
  {
    var t := AdvanceCall(s, c);
    assert CallInv(s, c);
    DrawOfHandle(|s.issued|);
    assert Grows(s, t);
    ListingsElsewhere(s, t, |s.table|);
    Assemble(s, t, c, |s.table|);
  }

  lemma StepSlotNumbered(s: State, c: nat)
    requires Inv(s) && CanAdvance(s, c) && s.calls[c].phase.SlotNumbered?
    ensures Inv(AdvanceCall(s, c)) && Grows(s, AdvanceCall(s, c))
  {
    var t := AdvanceCall(s, c);
    var id := s.calls[c].phase.id;
    assert CallInv(s, c);
    assert id in s.progress ==> ProgressOk(s, id);
    assert Grows(s, t);
    ListingsElsewhere(s, t, |s.table|);
    assert ProgressOk(t, id);
    Assemble(s, t, c, |s.table|);
  }

  // ---------------------------------------------------------------- all steps

  lemma AdvanceKeepsInv(s: State, c: nat)
    requires Inv(s) && CanAdvance(s, c) && |AdvanceCall(s, c).issued| <= TWO_64
    ensures Inv(AdvanceCall(s, c)) && Grows(s, AdvanceCall(s, c))
  {
    match s.calls[c].phase
    case BeginStart(_) => StepBeginStart(s, c);
    case BeginSpawned(_) => StepBeginSpawned(s, c);
    case BeginNumbered(_, _) => StepBeginNumbered(s, c);
    case BeginListed(_, _) => StepBeginListed(s, c);
    case ChunkStart(_, _) => StepChunkStart(s, c);
    case ChunkReserving(_, _) => StepChunkReserving(s, c);
    case ChunkSending(_, _) => StepChunkSending(s, c);
    case ChunkLeaving(_, _) => StepChunkLeaving(s, c);
    case FinishStart(_) => StepFinishStart(s, c);
    case FinishTaken(_) => StepFinishTaken(s, c);
    case FinishRegistering(_, _) => StepFinishRegistering(s, c);
    case FinishNumbered(_, _, _) => StepFinishNumbered(s, c);
    case SlotStart(_) => StepSlotStart(s, c);
    case SlotNumbered(_, _) => StepSlotNumbered(s, c);
    case FinishChecking(_) => StepFinishWaits(s, c);
    case FinishAwaiting(_) => StepFinishWaits(s, c);
    case _ => StepPoll(s, c);
  }

  lemma InvokeKeepsInv(s: State, request: Request)
    requires Inv(s) && Admissible(request)
    ensures var t := Next(s, Invoke(request)); Inv(t) && Grows(s, t)
  {
    var t := Next(s, Invoke(request));
    assert Grows(s, t);
    forall c | 0 <= c < |t.calls|
      ensures CallInv(t, c)
    {
      if c < |s.calls| {
        CallInvGrows(s, t, c);
      } else {
        InvokedCall(t, c, request);
      }
    }
    forall k | 0 <= k < |t.table|
      ensures StreamInv(t, k)
    {
      InvokeKeepsStream(s, t, request, k);
    }
    InvokeKeepsRegistry(s, t);
  }

  lemma InvokedCall(t: State, c: nat, request: Request)
    requires c < |t.calls| && t.calls[c] == Call(request, Entry(request)) && Admissible(request)
    ensures CallInv(t, c)
  {
    if request.Chunk? {
      ChunkFits(request.id, request.text, request.bytes);
    }
  }

  lemma InvokeKeepsStream(s: State, t: State, request: Request, k: nat)
    requires k < |s.table| && StreamInv(s, k)
    requires t == s.(calls := s.calls + [Call(request, Entry(request))])
    ensures StreamInv(t, k)
  {
    InvokeKeepsCounts(s, t, request, k);
    InvokeKeepsRoles(s, t, k);
    LogInvInvoke(s, t, k);
  }

  lemma InvokeKeepsCounts(s: State, t: State, request: Request, k: nat)
    requires k < |s.table| && Counts(s, k) && Roles(s, k)
    requires t == s.(calls := s.calls + [Call(request, Entry(request))])
    ensures Counts(t, k)
  {
    SumsAppend(s.calls, Call(request, Entry(request)), k);
    assert Owned(t, k) == Owned(s, k);
  }

  lemma InvokeKeepsRoles(s: State, t: State, k: nat)
    requires k < |s.table| && Roles(s, k)
    requires s.calls <= t.calls && t == s.(calls := t.calls)
    ensures Roles(t, k)
  {
  }

  lemma InvokeKeepsRegistry(s: State, t: State)
    requires RegistryInv(s) && s.calls <= t.calls && t == s.(calls := t.calls)
    ensures RegistryInv(t)
  {
    forall id | id in t.streams
      ensures StreamOk(t, id)
    {
      assert StreamOk(s, id);
    }
    forall id | id in t.progress
      ensures ProgressOk(t, id)
    {
      assert ProgressOk(s, id);
    }
    forall h | h in t.uploads
      ensures UploadOk(t, h)
    {
      assert UploadOk(s, h);
    }
  }

  lemma LogInvInvoke(s: State, t: State, k: nat)
    requires k < |s.table| && LogInv(s, k)
    requires t.table == s.table && s.calls <= t.calls
    ensures LogInv(t, k)
  {
  }

  /** A change of one stream's bytes that no call and no map sees. */
  lemma TaskStep(s: State, k: nat, after: Stream)
    requires Inv(s) && k < |s.table|
    requires Evolves(s.table[k], after) && Bytes(after)
    requires after.(source := s.table[k].source, meter := s.table[k].meter, task := s.table[k].task,
                    delivered := s.table[k].delivered, discarded := s.table[k].discarded) == s.table[k]
    ensures Inv(Put(s, k, after)) && Grows(s, Put(s, k, after))
  {
    var t := Put(s, k, after);
    assert Grows(s, t);
    forall c | 0 <= c < |t.calls|
      ensures CallInv(t, c)
    {
      CallInvGrows(s, t, c);
    }
    TaskKeepsStreams(s, k, after);
    ListingsElsewhere(s, t, k);
    forall id | id in t.progress
      ensures ProgressOk(t, id)
    {
      assert ProgressOk(s, id);
    }
    forall h | h in t.uploads
      ensures UploadOk(t, h)
    {
      assert UploadOk(s, h);
    }
  }

  lemma TaskKeepsStreams(s: State, k: nat, after: Stream)
    requires Inv(s) && k < |s.table| && Bytes(after)
    requires after.(source := s.table[k].source, meter := s.table[k].meter, task := s.table[k].task,
                    delivered := s.table[k].delivered, discarded := s.table[k].discarded) == s.table[k]
    ensures var t := Put(s, k, after); forall j | 0 <= j < |t.table| :: StreamInv(t, j)
  {
    var t := Put(s, k, after);
    forall j | 0 <= j < |t.table|
      ensures StreamInv(t, j)
    {
      TaskKeepsStream(s, k, after, j);
    }
  }

  lemma TaskKeepsStream(s: State, k: nat, after: Stream, j: nat)
    requires k < |s.table| && Bytes(after) && j < |s.table| && StreamInv(s, j)
    requires after.(source := s.table[k].source, meter := s.table[k].meter, task := s.table[k].task,
                    delivered := s.table[k].delivered, discarded := s.table[k].discarded) == s.table[k]
    ensures StreamInv(Put(s, k, after), j)
  {
    TaskKeepsLog(s, k, after, j);
    assert Counts(Put(s, k, after), j);
    assert Roles(Put(s, k, after), j);
  }

  lemma TaskKeepsLog(s: State, k: nat, after: Stream, j: nat)
    requires k < |s.table| && j < |s.table| && LogInv(s, j)
    requires after.id == s.table[k].id && after.log == s.table[k].log
    ensures LogInv(Put(s, k, after), j)
  {
    var t := Put(s, k, after);
    forall i {:trigger t.table[j].log[i]} | 0 <= i < |t.table[j].log|
      ensures OnStream(t, j, t.calls[t.table[j].log[i].call].request)
    {
      assert s.table[j].log[i] == t.table[j].log[i];
    }
  }

  lemma ReadKeepsBytes(st: Stream, room: nat)
    requires Bytes(st) && st.task.Running? && st.meter.uncounted == 0
    ensures Bytes(ReadStream(st, room)) && Evolves(st, ReadStream(st, room))
  {
    PollRefinesByteQueue(st.source, room, st.senders > 0);
    PollKeepsQueue(st.source, room, st.senders > 0);
    var (answer, after) := Poll(st.source, room, st.senders > 0);
    var out := if answer.Ready? then answer.bytes else [];
    assert out + Contents(after) == Contents(st.source);
    ReadOut(st, out, after);
  }

  /** Handing over the first bytes of what is held. */
  lemma ReadOut(st: Stream, out: seq<byte>, after: Source)
    requires Bytes(st) && st.task.Running? && st.meter.uncounted == 0 && out + Contents(after) == Contents(st.source)
    requires |after.queue| <= CAPACITY && forall i | 0 <= i < |after.queue| :: after.queue[i] != []
    ensures var r := st.(source := after, delivered := st.delivered + out, meter := st.meter.(uncounted := |out|));
            Bytes(r) && Evolves(st, r)
  {
    ConcatAssociates(st.delivered, out, Contents(after));
  }

  /** The reader counts, or a path upload announces its file or counts. */
  ghost predicate Counting(m: Meter, n: Meter) {
    || n == CountRead(m)
    || (exists size: nat :: n == AnnouncePath(m, size))
    || (exists bytes: nat :: m.foreign + bytes <= m.announced && n == CountPathRead(m, bytes))
  }

  /** Counting changes nothing but the counters. */
  lemma CountKeepsBytes(st: Stream, m: Meter)
    requires Bytes(st) && Counting(st.meter, m)
    ensures Bytes(st.(meter := m)) && Evolves(st, st.(meter := m))
  {
  }

  lemma {:induction false} PollKeepsQueue(source: Source, room: nat, open: bool)
    ensures var after := Poll(source, room, open).1;
            && |after.queue| <= |source.queue|
            && forall i | 0 <= i < |after.queue| :: after.queue[i] in source.queue
    decreases |source.queue|
  {
    if source.position >= |source.current| && source.queue != [] && source.queue[0] == [] {
      PollKeepsQueue(source.(queue := source.queue[1..]), room, open);
    }
  }

  lemma EndKeepsBytes(st: Stream, task: Task)
    requires Bytes(st) && st.task.Running? && st.meter.uncounted == 0 && !task.Running?
    requires task.Succeeded? ==> task.content == st.delivered && |st.delivered| == st.size
    ensures Bytes(EndTask(st, task)) && Evolves(st, EndTask(st, task))
  {
  }

  lemma MeterStep(s: State, k: nat, m: Meter)
    requires Inv(s) && k < |s.table|
    requires Counting(s.table[k].meter, m)
    ensures Inv(PutMeter(s, k, m)) && Grows(s, PutMeter(s, k, m))
  {
    assert StreamInv(s, k);
    CountKeepsBytes(s.table[k], m);
    TaskStep(s, k, s.table[k].(meter := m));
  }

  /** Every step keeps the invariant while fewer than 2^64 ids have been drawn. */
  lemma StepKeepsInv(s: State, a: Action)
    requires Inv(s) && Enabled(s, a) && |Next(s, a).issued| <= TWO_64
    ensures Inv(Next(s, a)) && Grows(s, Next(s, a))
  {
    match a
    case Invoke(request) => InvokeKeepsInv(s, request);
    case Advance(c) => AdvanceKeepsInv(s, c);
    case Read(k, room) =>
      assert StreamInv(s, k);
      ReadKeepsBytes(s.table[k], room);
      TaskStep(s, k, ReadStream(s.table[k], room));
    case Count(k) => MeterStep(s, k, CountRead(s.table[k].meter));
    case Announce(k, size) => MeterStep(s, k, AnnouncePath(s.table[k].meter, size));
    case CountPath(k, bytes) => MeterStep(s, k, CountPathRead(s.table[k].meter, bytes));
    case Succeed(k) =>
      assert StreamInv(s, k);
      EndKeepsBytes(s.table[k], Succeeded(s.table[k].delivered));
      TaskStep(s, k, EndTask(s.table[k], Succeeded(s.table[k].delivered)));
    case Fail(k) =>
      assert StreamInv(s, k);
      EndKeepsBytes(s.table[k], Failed);
      TaskStep(s, k, EndTask(s.table[k], Failed));
  }

  lemma IssuedOnlyGrows(s: State, a: Action)
    requires Enabled(s, a)
    ensures |s.issued| <= |Next(s, a).issued|
  {
    if a.Advance? {
      assert s.issued <= AdvanceCall(s, a.call).issued;
    }
  }

  lemma {:induction false} IssuedGrowsOverRuns(s: State, actions: seq<Action>)
    requires Runs(s, actions)
    ensures |s.issued| <= |Run(s, actions).issued|
    decreases |actions|
  {
    if actions != [] {
      IssuedOnlyGrows(s, actions[0]);
      IssuedGrowsOverRuns(Next(s, actions[0]), actions[1..]);
    }
  }

  /** Every interleaving keeps the invariant, and nothing that was answered is ever taken back. */
  lemma {:induction false} RunKeepsInv(s: State, actions: seq<Action>)
    requires Inv(s) && Runs(s, actions) && |Run(s, actions).issued| <= TWO_64
    ensures Inv(Run(s, actions)) && Grows(s, Run(s, actions))
    decreases |actions|
  {
    if actions != [] {
      var t := Next(s, actions[0]);
      IssuedGrowsOverRuns(t, actions[1..]);
      StepKeepsInv(s, actions[0]);
      RunKeepsInv(t, actions[1..]);
      GrowsChains(s, t, Run(t, actions[1..]));
    }
  }

  lemma GrowsChains(s: State, t: State, u: State)
    requires Inv(s) && Grows(s, t) && Grows(t, u)
    ensures Grows(s, u)
  {
    forall k | 0 <= k < |s.table|
      ensures Evolves(s.table[k], u.table[k])
    {
      assert StreamInv(s, k) && Evolves(s.table[k], t.table[k]) && Evolves(t.table[k], u.table[k]);
    }
  }

  lemma InitInv()
    ensures Inv(INIT)
  {
  }
}
