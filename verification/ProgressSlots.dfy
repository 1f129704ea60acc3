/**
 One `UploadProgress` of `native/src/upload.rs` shared by the uploads that count into it and by the threads
 that poll it: `upload_path_with_progress` of `native/src/client.rs` learns a file's length after the slot
 exists, and a snapshot loads the two counters one after the other. A path upload reads a file of fixed
 length, so never more than it announced. The slot may be one of `begin_progress` or that of a stream, whose
 id is a progress id as well.
 */
module ProgressSlots {
  import opened Wrappers
  import opened UploadReader

  /** A path upload: its file is open and measured, or the total is announced and it reads. */
  datatype Upload = Opened(size: nat) | Reading(size: nat, read: nat)

  /** A poll between its loads. */
  datatype Poll = Asked | Half(sent: nat) | Answered(sent: nat, total: nat)

  datatype State = State(total: nat, sent: nat, uploads: seq<Upload>, polls: seq<Poll>)

  datatype Action =
    | Open(size: nat)
    | Announce(upload: nat)
    | Read(upload: nat, bytes: nat)
    | Ask
    | LoadSent(poll: nat)
    | LoadTotal(poll: nat)

  /** A slot of `begin_progress` before anything happened to it. */
  function Slot(total: nat): (s: State) {
    State(total, 0, [], [])
  }

  predicate Enabled(s: State, a: Action) {
    match a
    case Open(size) => size < TWO_64
    case Announce(u) => u < |s.uploads| && s.uploads[u].Opened?
    case Read(u, bytes) => u < |s.uploads| && s.uploads[u].Reading? && s.uploads[u].read + bytes <= s.uploads[u].size
    case Ask => true
    case LoadSent(p) => p < |s.polls| && s.polls[p].Asked?
    case LoadTotal(p) => p < |s.polls| && s.polls[p].Half?
  }

  /** One `store`, `fetch_add` or `load` on the shared counters. */
  function Next(s: State, a: Action): (t: State)
    requires Enabled(s, a)
  {
    match a
    case Open(size) => s.(uploads := s.uploads + [Opened(size)])
    case Announce(u) => s.(total := s.uploads[u].size, uploads := s.uploads[u := Reading(s.uploads[u].size, 0)])
    case Read(u, bytes) =>
      var up := s.uploads[u];
      s.(sent := (s.sent + bytes) % TWO_64, uploads := s.uploads[u := up.(read := up.read + bytes)])
    case Ask => s.(polls := s.polls + [Asked])
    case LoadSent(p) => s.(polls := s.polls[p := Half(s.sent)])
    case LoadTotal(p) => s.(polls := s.polls[p := Poll.Answered(s.polls[p].sent, s.total)])
  }

  predicate Runs(s: State, actions: seq<Action>)
    decreases |actions|
  {
    actions == [] || (Enabled(s, actions[0]) && Runs(Next(s, actions[0]), actions[1..]))
  }

  function Run(s: State, actions: seq<Action>): (t: State)
    requires Runs(s, actions)
    decreases |actions|
  {
    if actions == [] then s else Run(Next(s, actions[0]), actions[1..])
  }

  // ---------------------------------------------------------------- what the counter counts

  function ReadBy(up: Upload): (n: nat) {
    if up.Reading? then up.read else 0
  }

  function TotalRead(uploads: seq<Upload>): (n: nat) {
    if uploads == [] then 0 else TotalRead(uploads[..|uploads| - 1]) + ReadBy(uploads[|uploads| - 1])
  }

  lemma {:induction false} TotalReadUpdate(uploads: seq<Upload>, u: nat, up: Upload)
    requires u < |uploads|
    ensures TotalRead(uploads[u := up]) == TotalRead(uploads) - ReadBy(uploads[u]) + ReadBy(up)
  {
    var last := |uploads| - 1;
    if u == last {
      assert uploads[u := up][..last] == uploads[..last];
    } else {
      TotalReadUpdate(uploads[..last], u, up);
      assert uploads[u := up][..last] == uploads[..last][u := up];
    }
  }

  lemma CountStep(s: State, a: Action)
    requires Enabled(s, a) && s.sent == TotalRead(s.uploads) % TWO_64
    ensures Next(s, a).sent == TotalRead(Next(s, a).uploads) % TWO_64
  {
    match a
    case Open(size) =>
      assert (s.uploads + [Opened(size)])[..|s.uploads|] == s.uploads;
    case Announce(u) =>
      TotalReadUpdate(s.uploads, u, Next(s, a).uploads[u]);
    case Read(u, bytes) =>
      TotalReadUpdate(s.uploads, u, Next(s, a).uploads[u]);
    case _ =>
  }

  /** In every run the counter is all the bytes its uploads have read, modulo 2^64, however they interleave. */
  lemma {:induction false} CounterIsBytesRead(s: State, actions: seq<Action>)
    requires Runs(s, actions) && s.sent == TotalRead(s.uploads) % TWO_64
    ensures Run(s, actions).sent == TotalRead(Run(s, actions).uploads) % TWO_64
    decreases |actions|
  {
    if actions != [] {
      CountStep(s, actions[0]);
      CounterIsBytesRead(Next(s, actions[0]), actions[1..]);
    }
  }

  // ---------------------------------------------------------------- what a poll reports

  /** Once it has loaded the one counter a poll keeps what it saw until it loads the other, and then for good. */
  lemma {:induction false} PollStays(s: State, actions: seq<Action>, p: nat)
    requires Runs(s, actions) && p < |s.polls|
    ensures p < |Run(s, actions).polls|
    ensures s.polls[p].Half? ==> Run(s, actions).polls[p] == s.polls[p] || Run(s, actions).polls[p].Answered?
    ensures s.polls[p].Answered? ==> Run(s, actions).polls[p] == s.polls[p]
    decreases |actions|
  {
    if actions != [] {
      PollStays(Next(s, actions[0]), actions[1..], p);
    }
  }

  /**
   What a poll answers, for good: all that had been read when it loaded the one counter, and the total as
   it stood when it loaded the other, whatever happened in between.
   */
  lemma PollReports(s: State, between: seq<Action>, later: seq<Action>, p: nat)
    requires s.sent == TotalRead(s.uploads) % TWO_64
    requires Enabled(s, LoadSent(p)) && Runs(Next(s, LoadSent(p)), between)
    requires var half := Run(Next(s, LoadSent(p)), between);
             Enabled(half, LoadTotal(p)) && Runs(Next(half, LoadTotal(p)), later)
    ensures var half := Run(Next(s, LoadSent(p)), between);
            var end := Run(Next(half, LoadTotal(p)), later);
            p < |end.polls| && end.polls[p] == Poll.Answered(TotalRead(s.uploads) % TWO_64, half.total)
  {
    var half := Run(Next(s, LoadSent(p)), between);
    PollStays(Next(s, LoadSent(p)), between, p);
    PollStays(Next(half, LoadTotal(p)), later, p);
  }

  /** A slot one upload counts into: nothing is counted before its size is announced, nor past that. */
  ghost predicate Single(s: State) {
    && |s.uploads| <= 1
    && (|s.uploads| == 1 ==> s.uploads[0].size < TWO_64)
    && (if |s.uploads| == 1 && s.uploads[0].Reading?
        then s.total == s.uploads[0].size && s.sent == s.uploads[0].read <= s.uploads[0].size
        else s.sent == 0)
    && forall p | 0 <= p < |s.polls| :: PollOk(s, s.polls[p])
  }

  ghost predicate PollOk(s: State, p: Poll) {
    match p
    case Asked => true
    case Half(sent) => sent > 0 ==> s.uploads != [] && s.uploads[0].Reading? && sent <= s.uploads[0].size
    case Answered(sent, total) => sent <= total
  }

  lemma StepKeepsSingle(s: State, a: Action)
    requires Enabled(s, a) && Single(s) && |Next(s, a).uploads| <= 1
    ensures Single(Next(s, a))
  {
    var t := Next(s, a);
    forall p | 0 <= p < |t.polls|
      ensures PollOk(t, t.polls[p])
    {
      assert p < |s.polls| ==> PollOk(s, s.polls[p]);
    }
  }

  lemma {:induction false} UploadsGrow(s: State, actions: seq<Action>)
    requires Runs(s, actions)
    ensures |s.uploads| <= |Run(s, actions).uploads|
    decreases |actions|
  {
    if actions != [] {
      UploadsGrow(Next(s, actions[0]), actions[1..]);
    }
  }

  lemma {:induction false} RunKeepsSingle(s: State, actions: seq<Action>)
    requires Runs(s, actions) && Single(s) && |Run(s, actions).uploads| <= 1
    ensures Single(Run(s, actions))
    decreases |actions|
  {
    if actions != [] {
      UploadsGrow(Next(s, actions[0]), actions[1..]);
      StepKeepsSingle(s, actions[0]);
      RunKeepsSingle(Next(s, actions[0]), actions[1..]);
    }
  }

  /** No answer in the state reports more sent than total. */
  ghost predicate Bounded(s: State) {
    forall p | 0 <= p < |s.polls| && s.polls[p].Answered? :: s.polls[p].sent <= s.polls[p].total
  }

  /**
   A slot that a single upload counts into never reports more bytes sent than its total, whenever the
   total is announced and whenever it is polled; and what the upload has read whole is reported whole.
   */
  lemma SingleUploadIsBounded(total: nat, actions: seq<Action>)
    requires Runs(Slot(total), actions) && |Run(Slot(total), actions).uploads| <= 1
    ensures var s := Run(Slot(total), actions);
            && Bounded(s)
            && (|s.uploads| == 1 && s.uploads[0].Reading? ==>
                  s.total == s.uploads[0].size && s.sent == s.uploads[0].read)
  {
    RunKeepsSingle(Slot(total), actions);
    SingleIsBounded(Run(Slot(total), actions));
  }

  /** A run in which two files of one byte each count into one slot, and a poll is told two bytes of one. */
  lemma TwoUploadsOverrun(total: nat) returns (actions: seq<Action>)
    ensures Runs(Slot(total), actions) && |Run(Slot(total), actions).uploads| == 2
    ensures !Bounded(Run(Slot(total), actions))
  {
    var s0 := Slot(total);
    var s1 := ReadOne(s0);
    var s2 := ReadOne(s1);
    var s3 := Next(s2, Ask);
    var s4 := Next(s3, LoadSent(0));
    var s5 := Next(s4, LoadTotal(0));
    assert s5.polls[0] == Poll.Answered(2, 1);
    var polled := [Ask, LoadSent(0), LoadTotal(0)];
    Chain(s4, LoadTotal(0), []);
    Chain(s3, LoadSent(0), [LoadTotal(0)]);
    Chain(s2, Ask, [LoadSent(0)] + [LoadTotal(0)]);
    actions := Whole(s1, [Ask] + ([LoadSent(0)] + [LoadTotal(0)]));
    actions := Whole(s0, actions);
  }

  /** The slot after one more file of one byte was uploaded into it. */
  function ReadOne(s: State): (t: State)
  {
    s.(total := 1, sent := (s.sent + 1) % TWO_64, uploads := s.uploads + [Reading(1, 1)])
  }

  lemma Chain(s: State, a: Action, rest: seq<Action>)
    requires Enabled(s, a) && Runs(Next(s, a), rest)
    ensures Runs(s, [a] + rest) && Run(s, [a] + rest) == Run(Next(s, a), rest)
  {
    assert ([a] + rest)[1..] == rest;
  }

  /** One more file of one byte, and then the rest. */
  lemma Whole(s: State, rest: seq<Action>) returns (actions: seq<Action>)
    requires Runs(ReadOne(s), rest)
    ensures Runs(s, actions) && Run(s, actions) == Run(ReadOne(s), rest)
  {
    var u := |s.uploads|;
    var measured := Next(s, Open(1));
    var announced := Next(measured, Announce(u));
    assert Next(announced, Read(u, 1)) == ReadOne(s);
    Chain(announced, Read(u, 1), rest);
    Chain(measured, Announce(u), [Read(u, 1)] + rest);
    Chain(s, Open(1), [Announce(u)] + ([Read(u, 1)] + rest));
    actions := [Open(1)] + ([Announce(u)] + ([Read(u, 1)] + rest));
  }

  /** Reports are bounded in all runs with at most so many uploads exactly when that is at most one. */
  lemma SnapshotsAreBoundedIff(uploads: nat)
    ensures (forall total: nat, actions |
               Runs(Slot(total), actions) && |Run(Slot(total), actions).uploads| <= uploads ::
               Bounded(Run(Slot(total), actions)))
            <==> uploads <= 1
  {
    if uploads <= 1 {
      forall total: nat, actions | Runs(Slot(total), actions) && |Run(Slot(total), actions).uploads| <= uploads
        ensures Bounded(Run(Slot(total), actions))
      {
        SingleUploadIsBounded(total, actions);
      }
    } else {
      var actions := TwoUploadsOverrun(0);
    }
  }

  // ---------------------------------------------------------------- a stream's slot

  /** The slot a stream begins with: its size is the total, and its own reader is the first to count. */
  function StreamSlot(size: nat): (s: State) {
    State(size, 0, [Reading(size, 0)], [])
  }

  /** A path upload of a one-byte file names the stream: a poll is then told all the stream's bytes and one. */
  lemma PathUploadOverrunsStream(size: nat) returns (actions: seq<Action>)
    requires 0 < size < TWO_64
    ensures Runs(StreamSlot(size), actions) && |Run(StreamSlot(size), actions).uploads| == 2
    ensures !Bounded(Run(StreamSlot(size), actions))
  {
    // The file's byte is counted onto a stream's last but one, so that the sum does not wrap.
    var s0 := StreamSlot(size);
    var read := if size == TWO_64 - 1 then size - 1 else size;
    var s1 := Next(s0, Read(0, read));
    var s2 := ReadOne(s1);
    var s3 := Next(s2, Ask);
    var s4 := Next(s3, LoadSent(0));
    var s5 := Next(s4, LoadTotal(0));
    assert s5.polls[0] == Poll.Answered(read + 1, 1);
    Chain(s4, LoadTotal(0), []);
    Chain(s3, LoadSent(0), [LoadTotal(0)]);
    Chain(s2, Ask, [LoadSent(0)] + [LoadTotal(0)]);
    var rest := Whole(s1, [Ask] + ([LoadSent(0)] + [LoadTotal(0)]));
    Chain(s0, Read(0, read), rest);
    actions := [Read(0, read)] + rest;
  }

  /** Without the stream's own reader, which has nothing to count. */
  function Others(s: State): (t: State)
    requires s.uploads != []
  {
    s.(uploads := s.uploads[1..])
  }

  /** A stream of no bytes, and at most one path upload in its slot. */
  ghost predicate EmptyStream(s: State) {
    s.uploads != [] && s.uploads[0] == Reading(0, 0) && s.sent < TWO_64 && Single(Others(s))
  }

  lemma StepKeepsEmptyStream(s: State, a: Action)
    requires Enabled(s, a) && EmptyStream(s) && |Next(s, a).uploads| <= 2
    ensures EmptyStream(Next(s, a))
  {
    var t := Next(s, a);
    if a.Read? && a.upload == 0 {
      assert t == s;
    } else {
      var b := match a
               case Announce(u) => Announce(u - 1)
               case Read(u, bytes) => Read(u - 1, bytes)
               case _ => a;
      assert Enabled(Others(s), b);
      assert Next(Others(s), b) == Others(t);
      StepKeepsSingle(Others(s), b);
    }
  }

  lemma {:induction false} RunKeepsEmptyStream(s: State, actions: seq<Action>)
    requires Runs(s, actions) && EmptyStream(s) && |Run(s, actions).uploads| <= 2
    ensures EmptyStream(Run(s, actions))
    decreases |actions|
  {
    if actions != [] {
      UploadsGrow(Next(s, actions[0]), actions[1..]);
      StepKeepsEmptyStream(s, actions[0]);
      RunKeepsEmptyStream(Next(s, actions[0]), actions[1..]);
    }
  }

  /** Two path uploads of one byte in an empty stream's slot. */
  lemma TwoOverrunEmptyStream() returns (actions: seq<Action>)
    ensures Runs(StreamSlot(0), actions) && |Run(StreamSlot(0), actions).uploads| == 3
    ensures !Bounded(Run(StreamSlot(0), actions))
  {
    var s0 := StreamSlot(0);
    var s2 := ReadOne(ReadOne(s0));
    var s3 := Next(s2, Ask);
    var s4 := Next(s3, LoadSent(0));
    assert Next(s4, LoadTotal(0)).polls[0] == Poll.Answered(2, 1);
    Chain(s4, LoadTotal(0), []);
    Chain(s3, LoadSent(0), [LoadTotal(0)]);
    Chain(s2, Ask, [LoadSent(0)] + [LoadTotal(0)]);
    actions := Whole(ReadOne(s0), [Ask] + ([LoadSent(0)] + [LoadTotal(0)]));
    actions := Whole(s0, actions);
  }

  /** No run with at most so many path uploads in a stream's slot makes a poll report more than the total. */
  ghost predicate AlwaysBounded(size: nat, more: nat) {
    forall actions | Runs(StreamSlot(size), actions) && |Run(StreamSlot(size), actions).uploads| <= 1 + more ::
      Bounded(Run(StreamSlot(size), actions))
  }

  /**
   What polls report about a stream is bounded in all runs with at most so many path uploads that name its
   progress id exactly when that is none, or the stream is empty and it is one.
   */
  lemma StreamSnapshotsAreBoundedIff(size: nat, more: nat)
    requires size < TWO_64
    ensures AlwaysBounded(size, more) <==> more == 0 || (size == 0 && more == 1)
  {
    if more == 0 || (size == 0 && more == 1) {
      forall actions | Runs(StreamSlot(size), actions) && |Run(StreamSlot(size), actions).uploads| <= 1 + more
        ensures Bounded(Run(StreamSlot(size), actions))
      {
        if more == 0 {
          RunKeepsSingle(StreamSlot(size), actions);
          SingleIsBounded(Run(StreamSlot(size), actions));
        } else {
          RunKeepsEmptyStream(StreamSlot(size), actions);
          SingleIsBounded(Others(Run(StreamSlot(size), actions)));
        }
      }
    } else if size > 0 {
      var actions := PathUploadOverrunsStream(size);
    } else {
      var actions := TwoOverrunEmptyStream();
    }
  }

  lemma SingleIsBounded(s: State)
    requires Single(s)
    ensures Bounded(s)
  {
    forall p | 0 <= p < |s.polls| && s.polls[p].Answered?
      ensures s.polls[p].sent <= s.polls[p].total
    {
      assert PollOk(s, s.polls[p]);
    }
  }
}
