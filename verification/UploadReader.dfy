/**
 The reading side of a streamed upload (`native/src/upload.rs`): the bounded channel's receiver
 presented as a byte source, and the wrapper that counts what it hands over. The classes update
 their fields as the source does; each poll is tied to `Poll`, a function on values, and what the
 source promises is proved about that function.
 */
module UploadReader {
  import opened Wrappers

  /** `STREAM_CHANNEL_CAPACITY`. */
  const CAPACITY: nat := 4

  /** One past the largest `u64`. */
  const TWO_64: nat := 0x1_0000_0000_0000_0000

  // ---------------------------------------------------------------- values

  /** What the reader holds: the chunk being handed over, how much of it is gone, and the queue. */
  datatype Source = Source(current: seq<byte>, position: nat, queue: seq<seq<byte>>)

  /** A poll's answer; `Ready([])` is what a caller with room takes for end-of-file. */
  datatype Answer = Ready(bytes: seq<byte>) | Pending

  const EMPTY: Source := Source([], 0, [])

  /** The part of the current chunk not handed over yet, the source's `retained`. */
  function Retained(s: Source): (r: seq<byte>) {
    if s.position <= |s.current| then s.current[s.position..] else []
  }

  /** The plain byte queue the reader stands for. */
  function Contents(s: Source): (r: seq<byte>) {
    Retained(s) + Flatten(s.queue)
  }

  /** One `ChannelReader::poll_read` into a buffer with `room` bytes left; `open` while a sender lives. */
  function Poll(s: Source, room: nat, open: bool): (r: (Answer, Source))
    decreases |s.queue|
  {
    if s.position < |s.current| then
      var available := s.current[s.position..];
      var take := if |available| < room then |available| else room;
      (Ready(available[..take]),
       if s.position + take == |s.current| then Source([], 0, s.queue)
       else s.(position := s.position + take))
    else if s.queue == [] then (if open then Pending else Ready([]), s)
    else if s.queue[0] == [] then Poll(s.(queue := s.queue[1..]), room, open)
    else
      var chunk := s.queue[0];
      var take := if |chunk| < room then |chunk| else room;
      (Ready(chunk[..take]),
       Source(if take == |chunk| then [] else chunk, if take == |chunk| then 0 else take, s.queue[1..]))
  }

  /**
   One poll refines taking a prefix off a byte queue, whatever the chunking: nothing is lost,
   duplicated or reordered; with room, an empty answer means closed and drained, and waiting means
   open and drained.
   */
  lemma {:induction false} PollRefinesByteQueue(s: Source, room: nat, open: bool)
    ensures var (answer, after) := Poll(s, room, open);
            match answer
            case Ready(out) =>
              && out + Contents(after) == Contents(s)
              && |out| <= room
              && (room > 0 ==> (out == [] <==> Contents(s) == []))
              && (room > 0 && out == [] ==> !open && after.queue == [])
            case Pending => open && Contents(s) == [] == Contents(after) && after.queue == []
    decreases |s.queue|
  {
    if s.position < |s.current| {
      HandOver(s.current[s.position..], room, s.queue);
      var after := Poll(s, room, open).1;
      var available := s.current[s.position..];
      assert Retained(after) == available[if |available| < room then |available| else room..];
    } else if s.queue == [] {
      assert Contents(s) == [] && [] + Contents(s) == Contents(s);
    } else if s.queue[0] == [] {
      PollRefinesByteQueue(s.(queue := s.queue[1..]), room, open);
      assert Flatten(s.queue) == Flatten(s.queue[1..]);
    } else {
      HandOver(s.queue[0], room, s.queue[1..]);
      var after := Poll(s, room, open).1;
      var chunk := s.queue[0];
      assert Retained(after) == chunk[if |chunk| < room then |chunk| else room..];
      assert Contents(s) == Flatten(s.queue) == chunk + Flatten(s.queue[1..]);
    }
  }

  /** Handing over what fits of `available` and keeping the rest leaves the byte queue's order. */
  lemma HandOver(available: seq<byte>, room: nat, queue: seq<seq<byte>>)
    ensures var take := if |available| < room then |available| else room;
            available[..take] + (available[take..] + Flatten(queue)) == available + Flatten(queue)
  {
  }

  /** At most one chunk's remainder is retained, and a poll only ever shortens the queue. */
  lemma {:induction false} PollRetains(s: Source, room: nat, open: bool)
    ensures var after := Poll(s, room, open).1;
            && |after.queue| <= |s.queue|
            && (|Retained(after)| <= |Retained(s)|
                || exists i | 0 <= i < |s.queue| :: |Retained(after)| <= |s.queue[i]|)
    decreases |s.queue|
  {
    if s.position >= |s.current| && s.queue != [] && s.queue[0] == [] {
      var next := s.(queue := s.queue[1..]);
      PollRetains(next, room, open);
      assert forall i | 0 <= i < |next.queue| :: next.queue[i] == s.queue[i + 1];
    }
  }

  /** The first `room` bytes, or all. */
  function FirstOf(bytes: seq<byte>, room: nat): (b: seq<byte>) {
    if |bytes| < room then bytes else bytes[..room]
  }

  /** A poll hands over as much of what is retained, or else of the first chunk that is not empty, as fits. */
  lemma {:induction false} PollTakes(s: Source, room: nat, open: bool, i: nat)
    requires Retained(s) == [] ==>
               i < |s.queue| && s.queue[i] != [] && forall j | 0 <= j < i :: s.queue[j] == []
    ensures var (answer, after) := Poll(s, room, open);
            if Retained(s) != [] then answer == Ready(FirstOf(Retained(s), room)) && after.queue == s.queue
            else answer == Ready(FirstOf(s.queue[i], room)) && after.queue == s.queue[i + 1..]
    decreases i
  {
    if Retained(s) == [] && i > 0 {
      assert s.queue[0] == [];
      var next := s.(queue := s.queue[1..]);
      assert forall j | 0 <= j < i :: next.queue[j] == s.queue[j + 1];
      PollTakes(next, room, open, i - 1);
      assert next.queue[i..] == s.queue[i + 1..];
    }
  }

  /** The bytes a caller collects from polls with these buffer sizes, stopping when none is ready. */
  function Drain(s: Source, rooms: seq<nat>, open: bool): (r: (seq<byte>, Source))
    decreases |rooms|
  {
    if rooms == [] then ([], s)
    else
      match Poll(s, rooms[0], open)
      case (Pending, after) => ([], after)
      case (Ready(out), after) =>
        var (more, end) := Drain(after, rooms[1..], open);
        (out + more, end)
  }

  /** Any sequence of buffer sizes collects a prefix of the concatenated chunks. */
  lemma {:induction false} DrainIsAPrefix(s: Source, rooms: seq<nat>, open: bool)
    ensures var (out, end) := Drain(s, rooms, open); out + Contents(end) == Contents(s)
    decreases |rooms|
  {
    if rooms != [] {
      PollRefinesByteQueue(s, rooms[0], open);
      var (answer, after) := Poll(s, rooms[0], open);
      if answer.Ready? {
        DrainIsAPrefix(after, rooms[1..], open);
        var (more, end) := Drain(after, rooms[1..], open);
        ConcatAssociates(answer.bytes, more, Contents(end));
      }
    }
  }

  /** A closed source read with any non-empty buffers, one per byte held, is read to the end. */
  lemma {:induction false} DrainReadsEverything(s: Source, rooms: seq<nat>)
    requires forall i | 0 <= i < |rooms| :: rooms[i] > 0
    requires |rooms| >= |Contents(s)|
    ensures Drain(s, rooms, false).0 == Contents(s)
    decreases |rooms|
  {
    if rooms != [] {
      PollRefinesByteQueue(s, rooms[0], false);
      var (answer, after) := Poll(s, rooms[0], false);
      var out := answer.bytes;
      assert |Contents(s)| == |out| + |Contents(after)|;
      DrainReadsEverything(after, rooms[1..]);
    }
  }

  /** While chunks wait, one read per retained byte and one more make room for the producer. */
  lemma {:induction false} DrainMakesRoom(s: Source, rooms: seq<nat>, open: bool)
    requires s.queue != []
    requires forall i | 0 <= i < |rooms| :: rooms[i] > 0
    requires |rooms| > |Retained(s)|
    ensures |Drain(s, rooms, open).1.queue| < |s.queue|
    decreases |rooms|
  {
    var (answer, after) := Poll(s, rooms[0], open);
    PollDequeues(s, rooms[0], open);
    if s.position < |s.current| {
      DrainMakesRoom(after, rooms[1..], open);
    } else if answer.Ready? {
      DrainKeepsRoom(after, rooms[1..], open);
    }
  }

  lemma {:induction false} PollDequeues(s: Source, room: nat, open: bool)
    ensures var (answer, after) := Poll(s, room, open);
            && |after.queue| <= |s.queue|
            && (s.position >= |s.current| && s.queue != [] ==> |after.queue| < |s.queue|)
            && (s.position < |s.current| && room > 0 ==> |Retained(after)| < |Retained(s)| && after.queue == s.queue)
    decreases |s.queue|
  {
    if s.position >= |s.current| && s.queue != [] && s.queue[0] == [] {
      PollDequeues(s.(queue := s.queue[1..]), room, open);
    }
  }

  lemma {:induction false} DrainKeepsRoom(s: Source, rooms: seq<nat>, open: bool)
    ensures |Drain(s, rooms, open).1.queue| <= |s.queue|
    decreases |rooms|
  {
    if rooms != [] {
      PollDequeues(s, rooms[0], open);
      var (answer, after) := Poll(s, rooms[0], open);
      if answer.Ready? {
        DrainKeepsRoom(after, rooms[1..], open);
      }
    }
  }

  // ---------------------------------------------------------------- objects

  datatype Received = Chunk(bytes: seq<byte>) | Closed | Waiting

  /** The bounded channel as its two ends see it: a FIFO that closes when every sender is gone. */
  class Channel {
    var queue: seq<seq<byte>>
    var senders: nat

    constructor ()
      ensures queue == [] && senders == 1
    {
      queue, senders := [], 1;
    }

    /** `Sender::try_send`: refused when full. */
    method TrySend(chunk: seq<byte>) returns (sent: bool)
      modifies this`queue
      ensures sent == (|old(queue)| < CAPACITY)
      ensures queue == if sent then old(queue) + [chunk] else old(queue)
    {
      sent := |queue| < CAPACITY;
      if sent {
        queue := queue + [chunk];
      }
    }

    /** `Receiver::poll_recv`. */
    method PollRecv() returns (r: Received)
      modifies this`queue
      ensures r == if old(queue) != [] then Chunk(old(queue)[0]) else if senders == 0 then Closed else Waiting
      ensures queue == if old(queue) != [] then old(queue)[1..] else []
    {
      if queue != [] {
        r := Chunk(queue[0]);
        queue := queue[1..];
      } else {
        r := if senders == 0 then Closed else Waiting;
      }
    }
  }

  /** `tokio::io::ReadBuf`: a fixed buffer filled from the front. */
  class ReadBuf {
    const data: array<byte>
    var filled: nat

    predicate Valid()
      reads this
    {
      filled <= data.Length
    }

    function Filled(): (s: seq<byte>)
      reads this, data
      requires Valid()
    {
      data[..filled]
    }

    function Remaining(): (n: nat)
      reads this
      requires Valid()
    {
      data.Length - filled
    }

    constructor (capacity: nat)
      ensures Valid() && fresh(data) && Filled() == [] && Remaining() == capacity
    {
      data := new byte[capacity](_ => 0);
      filled := 0;
    }

    method PutSlice(bytes: seq<byte>)
      requires Valid() && |bytes| <= Remaining()
      modifies this, data
      ensures Valid() && Filled() == old(Filled()) + bytes
    {
      for i := 0 to |bytes|
        invariant filled == old(filled)
        invariant data[..filled + i] == old(Filled()) + bytes[..i]
      {
        data[filled + i] := bytes[i];
      }
      filled := filled + |bytes|;
    }
  }

  class ChannelReader {
    const receiver: Channel
    var current: seq<byte>
    var position: nat

    /** The value this reader and its channel stand for. */
    function State(): (s: Source)
      reads this, receiver
    {
      Source(current, position, receiver.queue)
    }

    constructor (receiver: Channel)
      ensures this.receiver == receiver && State() == Source([], 0, receiver.queue)
    {
      this.receiver := receiver;
      current, position := [], 0;
    }

    /** `poll_read`: true when the source answers `Ready`, with the bytes put into the buffer. */
    method PollRead(buf: ReadBuf) returns (ready: bool)
      requires buf.Valid()
      modifies this, receiver`queue, buf, buf.data
      ensures buf.Valid()
      ensures var (answer, after) := Poll(old(State()), old(buf.Remaining()), receiver.senders > 0);
              && State() == after
              && ready == answer.Ready?
              && buf.Filled() == old(buf.Filled()) + if ready then answer.bytes else []
    {
      ghost var target := Poll(State(), buf.Remaining(), receiver.senders > 0);
      while true
        invariant unchanged(buf) && unchanged(buf.data)
        invariant Poll(State(), buf.Remaining(), receiver.senders > 0) == target
        invariant receiver.senders == old(receiver.senders)
        decreases |receiver.queue|, position >= |current|
      {
        if position < |current| {
          var available := current[position..];
          var take := if |available| < buf.Remaining() then |available| else buf.Remaining();
          buf.PutSlice(available[..take]);
          position := position + take;
          if position == |current| {
            current, position := [], 0;
          }
          return true;
        }
        var received := receiver.PollRecv();
        match received
        case Chunk(chunk) =>
          if chunk == [] {
            continue;
          }
          current, position := chunk, 0;
        case Closed =>
          assert buf.Filled() == old(buf.Filled()) + [];
          return true;
        case Waiting =>
          assert buf.Filled() == old(buf.Filled()) + [];
          return false;
      }
    }
  }

  class UploadProgress {
    var total: nat
    var sent: nat

    constructor (total: nat)
      ensures this.total == total && sent == 0
    {
      this.total, sent := total, 0;
    }

    /** `fetch_add` on a `u64`, which wraps. */
    method Add(bytes: nat)
      modifies this`sent
      ensures sent == (old(sent) + bytes) % TWO_64
    {
      sent := (sent + bytes) % TWO_64;
    }

    method SetTotal(total: nat)
      modifies this`total
      ensures this.total == total
    {
      this.total := total;
    }
  }

  class ProgressReader {
    const inner: ChannelReader
    const progress: UploadProgress

    constructor (inner: ChannelReader, progress: UploadProgress)
      ensures this.inner == inner && this.progress == progress
    {
      this.inner, this.progress := inner, progress;
    }

    /** The counter grows by exactly the bytes the poll added to the buffer. */
    method PollRead(buf: ReadBuf) returns (ready: bool)
      requires buf.Valid() && progress.sent < TWO_64
      modifies inner, inner.receiver`queue, buf, buf.data, progress`sent
      ensures buf.Valid()
      ensures var (answer, after) := Poll(old(inner.State()), old(buf.Remaining()), inner.receiver.senders > 0);
              && inner.State() == after
              && ready == answer.Ready?
              && buf.Filled() == old(buf.Filled()) + if ready then answer.bytes else []
      ensures progress.sent == (old(progress.sent) + |buf.Filled()| - |old(buf.Filled())|) % TWO_64
    {
      var before := buf.filled;
      ready := inner.PollRead(buf);
      if ready {
        var read := buf.filled - before;
        if read > 0 {
          progress.Add(read);
        }
      }
    }
  }
}
