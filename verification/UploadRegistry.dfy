/**
 `UploadRegistry` of `native/src/client.rs` as the object it is: three maps and an id counter that its
 methods update. Every method is tied to a function on registry values, and what is proved of these holds
 of every list of uses of the object.
 */
module UploadRegistry {
  import opened Wrappers
  import opened UploadReader
  import opened UploadSystem

  /** The registry as a value; `draws` counts how often the id counter was advanced. */
  datatype Registry = Registry(
    draws: nat,
    streams: map<int, nat>,
    progress: map<int, Slot>,
    uploads: map<int, Uploaded>)

  // ---------------------------------------------------------------- operations on values

  function Drawn(r: Registry): (t: (int, Registry)) {
    (HandleAt(r.draws), r.(draws := r.draws + 1))
  }

  function WithProgress(r: Registry, id: int, slot: Slot): (t: Registry) {
    r.(progress := r.progress[id := slot])
  }

  function WithStream(r: Registry, id: int, stream: nat): (t: Registry) {
    r.(streams := r.streams[id := stream])
  }

  function WithoutStream(r: Registry, id: int): (t: Registry) {
    r.(streams := r.streams - {id})
  }

  function WithUpload(r: Registry, handle: int, uploaded: Uploaded): (t: Registry) {
    r.(uploads := r.uploads[handle := uploaded])
  }

  // ---------------------------------------------------------------- uses of the registry

  datatype Use =
    | BeginStream(stream: nat)
    | BeginProgress(total: nat)
    | Progress(id: int)
    | StreamHandle(id: int)
    | TakeStream(id: int)
    | Register(uploaded: Uploaded)
    | Get(handle: int)

  /** What a use is answered; `Nothing` stands for the error about an unknown id. */
  datatype Reply = AnId(id: int) | ASlot(slot: Slot) | AStream(stream: nat) | AnUpload(uploaded: Uploaded) | Nothing

  datatype Unknown = UnknownUpload(handle: int)

  function Answered(r: Result<Uploaded, Unknown>): (a: Reply) {
    if r.Ok? then AnUpload(r.value) else Nothing
  }

  function Apply(r: Registry, use: Use): (t: (Reply, Registry)) {
    match use
    case BeginStream(k) =>
      var (id, drawn) := Drawn(r);
      (AnId(id), WithStream(WithProgress(drawn, id, OfStream(k)), id, k))
    case BeginProgress(total) =>
      var (id, drawn) := Drawn(r);
      (AnId(id), WithProgress(drawn, id, OfPath(total)))
    case Progress(id) => (if id in r.progress then ASlot(r.progress[id]) else Nothing, r)
    case StreamHandle(id) => (if id in r.streams then AStream(r.streams[id]) else Nothing, r)
    case TakeStream(id) => (if id in r.streams then AStream(r.streams[id]) else Nothing, WithoutStream(r, id))
    case Register(uploaded) =>
      var (handle, drawn) := Drawn(r);
      (AnId(handle), WithUpload(drawn, handle, uploaded))
    case Get(handle) => (if handle in r.uploads then AnUpload(r.uploads[handle]) else Nothing, r)
  }

  const EMPTY_REGISTRY := Registry(0, map[], map[], map[])

  /** The registry after the first `n` of a list of uses, and what the use at `i` was answered. */
  function At(uses: seq<Use>, n: nat): (r: Registry)
    requires n <= |uses|
  {
    if n == 0 then EMPTY_REGISTRY else Apply(At(uses, n - 1), uses[n - 1]).1
  }

  function ReplyAt(uses: seq<Use>, i: nat): (a: Reply)
    requires i < |uses|
  {
    Apply(At(uses, i), uses[i]).0
  }

  // ---------------------------------------------------------------- the object

  class Uploads {
    var streams: map<int, nat>
    var uploads: map<int, Uploaded>
    var progress: map<int, Slot>
    var nextHandle: int
    ghost var draws: nat

    /** The counter holds what the next draw answers. */
    ghost predicate Valid()
      reads this
    {
      nextHandle == HandleAt(draws)
    }

    ghost function View(): (r: Registry)
      reads this
    {
      Registry(draws, streams, progress, uploads)
    }

    constructor ()
      ensures Valid() && View() == Registry(0, map[], map[], map[])
    {
      streams, uploads, progress := map[], map[], map[];
      nextHandle, draws := 0, 0;
    }

    /** `next`: `fetch_add(1)` on an `i64`, which wraps from the largest to the smallest. */
    method Next() returns (id: int)
      requires Valid()
      modifies this`nextHandle, this`draws
      ensures Valid() && (id, View()) == Drawn(old(View()))
    {
      id := nextHandle;
      nextHandle := if nextHandle == TWO_63 - 1 then -0x8000_0000_0000_0000 else nextHandle + 1;
      draws := draws + 1;
    }

    method InsertStream(id: int, stream: nat)
      requires Valid()
      modifies this`streams
      ensures Valid() && View() == WithStream(old(View()), id, stream)
    {
      streams := streams[id := stream];
    }

    method InsertProgress(id: int, slot: Slot)
      requires Valid()
      modifies this`progress
      ensures Valid() && View() == WithProgress(old(View()), id, slot)
    {
      progress := progress[id := slot];
    }

    method BeginProgress(total: nat) returns (id: int)
      requires Valid()
      modifies this`nextHandle, this`draws, this`progress
      ensures Valid() && id == Drawn(old(View())).0
      ensures View() == WithProgress(Drawn(old(View())).1, id, OfPath(total))
      ensures (AnId(id), View()) == Apply(old(View()), Use.BeginProgress(total))
    {
      id := Next();
      InsertProgress(id, OfPath(total));
    }

    /** The end of `start_stream_upload`: a draw, then the progress slot, then the stream, all under one id. */
    method StartStream(stream: nat) returns (id: int)
      requires Valid()
      modifies this`nextHandle, this`draws, this`progress, this`streams
      ensures Valid() && (AnId(id), View()) == Apply(old(View()), BeginStream(stream))
    {
      id := Next();
      InsertProgress(id, OfStream(stream));
      InsertStream(id, stream);
    }

    method Progress(id: int) returns (r: Result<Slot, Failure>)
      ensures r.Err? ==> r.error == UnknownProgress
      ensures (if r.Ok? then ASlot(r.value) else Nothing, View()) == Apply(View(), Use.Progress(id))
    {
      r := if id in progress then Ok(progress[id]) else Err(UnknownProgress);
    }

    method StreamHandle(id: int) returns (r: Result<nat, Failure>)
      ensures r.Err? ==> r.error == UnknownStream
      ensures (if r.Ok? then AStream(r.value) else Nothing, View()) == Apply(View(), Use.StreamHandle(id))
    {
      r := if id in streams then Ok(streams[id]) else Err(UnknownStream);
    }

    /** A stream is taken once: a second take of the same id finds nothing. */
    method TakeStream(id: int) returns (r: Result<nat, Failure>)
      requires Valid()
      modifies this`streams
      ensures r == if id in old(streams) then Ok(old(streams)[id]) else Err(UnknownStream)
      ensures Valid() && View() == WithoutStream(old(View()), id) && id !in streams
      ensures (if r.Ok? then AStream(r.value) else Nothing, View()) == Apply(old(View()), Use.TakeStream(id))
    {
      if id in streams {
        r := Ok(streams[id]);
        streams := streams - {id};
      } else {
        r := Err(UnknownStream);
        assert streams - {id} == streams;
      }
    }

    method Register(uploaded: Uploaded) returns (handle: int)
      requires Valid()
      modifies this`nextHandle, this`draws, this`uploads
      ensures Valid() && handle == Drawn(old(View())).0
      ensures View() == WithUpload(Drawn(old(View())).1, handle, uploaded)
      ensures (AnId(handle), View()) == Apply(old(View()), Use.Register(uploaded))
    {
      handle := Next();
      uploads := uploads[handle := uploaded];
    }

    method Get(handle: int) returns (r: Result<Uploaded, Unknown>)
      ensures (Answered(r), View()) == Apply(View(), Use.Get(handle))
    {
      r := if handle in uploads then Ok(uploads[handle]) else Err(UnknownUpload(handle));
    }
  }

  /** The counter of a `StreamUpload` that the chunk calls share. */
  class AcceptedCounter {
    const size: nat
    var accepted: nat

    constructor (size: nat)
      ensures this.size == size && accepted == 0
    {
      this.size := size;
      accepted := 0;
    }

    /** `try_update` with the closure of `append_stream`: the whole chunk is reserved or nothing is. */
    method TryReserve(length: nat) returns (ok: bool)
      modifies this`accepted
      ensures ok == Reserve(old(accepted), length, size).Some?
      ensures accepted == if ok then Reserve(old(accepted), length, size).value else old(accepted)
      // Below the wrap this is what a reservation means: the whole chunk when it fits, and never past the size.
      ensures Fits(size) && length <= LONGEST && old(accepted) <= size ==>
                && (ok <==> old(accepted) + length <= size)
                && accepted == (if ok then old(accepted) + length else old(accepted)) <= size
    {
      var sum := (accepted + length) % TWO_64;
      ok := sum <= size;
      if ok {
        accepted := sum;
      }
    }
  }

  // ---------------------------------------------------------------- what any list of uses is answered

  /** A use that is answered an id draws one, and no other use draws any. */
  lemma UseDraws(r: Registry, use: Use)
    ensures Apply(r, use).1.draws == r.draws + if Apply(r, use).0.AnId? then 1 else 0
    ensures Apply(r, use).0.AnId? ==> Apply(r, use).0.id == HandleAt(r.draws)
  {
  }

  lemma {:induction false} DrawsGrow(uses: seq<Use>, m: nat, n: nat)
    requires m <= n <= |uses|
    ensures At(uses, m).draws <= At(uses, n).draws
    decreases n
  {
    if m < n {
      DrawsGrow(uses, m, n - 1);
      UseDraws(At(uses, n - 1), uses[n - 1]);
    }
  }

  /** No id answered twice, by whichever uses, below 2^64 draws. */
  lemma AnsweredIdsDiffer(uses: seq<Use>, i: nat, j: nat)
    requires i < j < |uses| && At(uses, |uses|).draws <= TWO_64
    requires ReplyAt(uses, i).AnId? && ReplyAt(uses, j).AnId?
    ensures ReplyAt(uses, i) != ReplyAt(uses, j)
  {
    UseDraws(At(uses, i), uses[i]);
    UseDraws(At(uses, j), uses[j]);
    DrawsGrow(uses, i + 1, j);
    DrawsGrow(uses, j + 1, |uses|);
    DrawOfHandle(At(uses, i).draws);
    DrawOfHandle(At(uses, j).draws);
  }

  lemma {:induction false} OnlySlots(n: nat, m: nat)
    requires m <= n
    ensures At(seq(n, _ => Use.BeginProgress(0)), m).draws == m
  {
    if m > 0 {
      OnlySlots(n, m - 1);
    }
  }

  /** And for no bound beyond that. */
  lemma AnsweredIdsDifferExactlyFor(draws: nat)
    ensures (forall uses: seq<Use>, i, j | 0 <= i < j < |uses| && At(uses, |uses|).draws <= draws
                                           && ReplyAt(uses, i).AnId? && ReplyAt(uses, j).AnId? ::
               ReplyAt(uses, i) != ReplyAt(uses, j))
            <==> draws <= TWO_64
  {
    if draws <= TWO_64 {
      forall uses: seq<Use>, i: nat, j: nat | i < j < |uses| && At(uses, |uses|).draws <= draws
                                             && ReplyAt(uses, i).AnId? && ReplyAt(uses, j).AnId?
        ensures ReplyAt(uses, i) != ReplyAt(uses, j)
      {
        AnsweredIdsDiffer(uses, i, j);
      }
    } else {
      var uses := seq(TWO_64 + 1, _ => Use.BeginProgress(0));
      OnlySlots(|uses|, |uses|);
      OnlySlots(|uses|, 0);
      OnlySlots(|uses|, TWO_64);
      assert ReplyAt(uses, 0) == AnId(HandleAt(0)) == AnId(HandleAt(TWO_64)) == ReplyAt(uses, TWO_64);
    }
  }

  /** Every key was drawn, and streams, slots and uploads are kept apart. */
  ghost predicate Kept(r: Registry) {
    && (forall id | id in r.progress :: Issued(r, id))
    && (forall h | h in r.uploads :: Issued(r, h))
    && r.streams.Keys <= r.progress.Keys
    && r.uploads.Keys !! r.progress.Keys
  }

  ghost predicate Issued(r: Registry, id: int) {
    0 <= Draw(id) < r.draws && HandleAt(Draw(id)) == id
  }

  lemma NextIsNew(r: Registry, id: int)
    requires r.draws < TWO_64 && Issued(r, id)
    ensures id != HandleAt(r.draws) && Issued(Drawn(r).1, id)
    ensures Issued(Drawn(r).1, HandleAt(r.draws))
  {
    DrawOfHandle(r.draws);
  }

  lemma UseKeeps(r: Registry, use: Use)
    requires Kept(r) && Apply(r, use).1.draws <= TWO_64
    ensures Kept(Apply(r, use).1)
  {
    if use.BeginStream? || use.BeginProgress? || use.Register? {
      DrawOfHandle(r.draws);
      forall id | id in r.progress || id in r.uploads
        ensures id != HandleAt(r.draws) && Issued(Drawn(r).1, id)
      {
        NextIsNew(r, id);
      }
    }
  }

  lemma {:induction false} UsesKeep(uses: seq<Use>, n: nat)
    requires n <= |uses| && At(uses, n).draws <= TWO_64
    ensures Kept(At(uses, n))
  {
    if n > 0 {
      DrawsGrow(uses, n - 1, n);
      UsesKeep(uses, n - 1);
      UseKeeps(At(uses, n - 1), uses[n - 1]);
    }
  }

  /** The id is a stream's: it can be looked up unless it was taken. */
  lemma {:induction false} StreamUntilTaken(uses: seq<Use>, i: nat, n: nat)
    requires i < n <= |uses| && At(uses, n).draws <= TWO_64 && uses[i].BeginStream?
    ensures var id := ReplyAt(uses, i).id;
            && Issued(At(uses, n), id)
            && if forall m | i < m < n :: uses[m] != TakeStream(id)
               then id in At(uses, n).streams && At(uses, n).streams[id] == uses[i].stream
               else id !in At(uses, n).streams
    decreases n
  {
    var id := ReplyAt(uses, i).id;
    DrawsGrow(uses, n - 1, n);
    if n == i + 1 {
      DrawOfHandle(At(uses, i).draws);
    } else {
      StreamUntilTaken(uses, i, n - 1);
      IdStays(At(uses, n - 1), uses[n - 1], id);
    }
  }

  /** A use does not touch what is listed under an id that was issued before, unless it takes it. */
  lemma IdStays(r: Registry, use: Use, id: int)
    requires Issued(r, id) && Apply(r, use).1.draws <= TWO_64
    ensures var t := Apply(r, use).1;
            && Issued(t, id)
            && (id in t.streams <==> id in r.streams && use != TakeStream(id))
            && (id in t.streams ==> t.streams[id] == r.streams[id])
            && (id in r.uploads ==> id in t.uploads && t.uploads[id] == r.uploads[id])
            && (id in r.progress ==> id in t.progress && t.progress[id] == r.progress[id])
  {
    if use.BeginStream? || use.BeginProgress? || use.Register? {
      NextIsNew(r, id);
    }
  }

  /**
   A stream begun under an id is what a chunk or a finish on that id is answered if and only if no finish
   has taken it since; once taken, nobody is answered it again.
   */
  lemma StreamAnsweredIff(uses: seq<Use>, i: nat, j: nat)
    requires i < j < |uses| && At(uses, j).draws <= TWO_64 && uses[i].BeginStream?
    requires uses[j] == StreamHandle(ReplyAt(uses, i).id) || uses[j] == TakeStream(ReplyAt(uses, i).id)
    ensures ReplyAt(uses, j) == AStream(uses[i].stream) <==>
            forall m | i < m < j :: uses[m] != TakeStream(ReplyAt(uses, i).id)
    ensures ReplyAt(uses, j) == AStream(uses[i].stream) || ReplyAt(uses, j) == Nothing
  {
    StreamUntilTaken(uses, i, j);
  }

  lemma {:induction false} UploadStays(uses: seq<Use>, i: nat, n: nat)
    requires i < n <= |uses| && At(uses, n).draws <= TWO_64 && uses[i].Register?
    ensures var h := ReplyAt(uses, i).id;
            var r := At(uses, n);
            && Issued(r, h) && h in r.uploads && r.uploads[h] == uses[i].uploaded && Kept(r)
    decreases n
  {
    DrawsGrow(uses, n - 1, n);
    UsesKeep(uses, n);
    if n == i + 1 {
      DrawOfHandle(At(uses, i).draws);
    } else {
      UploadStays(uses, i, n - 1);
      IdStays(At(uses, n - 1), uses[n - 1], ReplyAt(uses, i).id);
    }
  }

  /** A registered upload is what its handle resolves to ever after, and the handle is nothing else. */
  lemma HandleResolves(uses: seq<Use>, i: nat, j: nat)
    requires i < j < |uses| && At(uses, j).draws <= TWO_64 && uses[i].Register?
    ensures var h := ReplyAt(uses, i).id;
            && (uses[j] == Get(h) ==> ReplyAt(uses, j) == AnUpload(uses[i].uploaded))
            && (uses[j] == Use.Progress(h) || uses[j] == StreamHandle(h) || uses[j] == TakeStream(h) ==>
                  ReplyAt(uses, j) == Nothing)
  {
    UploadStays(uses, i, j);
  }

  /** The slot a use opens under the id it is answered. */
  ghost predicate Opens(use: Use, slot: Slot) {
    (use.BeginStream? && slot == OfStream(use.stream)) || (use.BeginProgress? && slot == OfPath(use.total))
  }

  /** One of the first `n` uses opened this slot under this id, */
  ghost predicate Begun(uses: seq<Use>, n: nat, id: int, slot: Slot)
    requires n <= |uses|
  {
    n > 0 && (Begun(uses, n - 1, id, slot) || (ReplyAt(uses, n - 1) == AnId(id) && Opens(uses[n - 1], slot)))
  }

  /** or registered this upload under this handle. */
  ghost predicate Registered(uses: seq<Use>, n: nat, handle: int, uploaded: Uploaded)
    requires n <= |uses|
  {
    n > 0 &&
    (Registered(uses, n - 1, handle, uploaded) ||
     (ReplyAt(uses, n - 1) == AnId(handle) && uses[n - 1] == Register(uploaded)))
  }

  /** The next id is none that was answered. */
  lemma NotAnsweredBefore(uses: seq<Use>, i: nat, n: nat)
    requires i < n <= |uses| && At(uses, n).draws < TWO_64 && ReplyAt(uses, i).AnId?
    ensures ReplyAt(uses, i).id != HandleAt(At(uses, n).draws)
  {
    UseDraws(At(uses, i), uses[i]);
    DrawsGrow(uses, i + 1, n);
    DrawOfHandle(At(uses, i).draws);
    DrawOfHandle(At(uses, n).draws);
  }

  /** Nothing was opened or registered under an id that no use was answered. */
  lemma {:induction false} NothingUnder(uses: seq<Use>, n: nat, id: int, slot: Slot, uploaded: Uploaded)
    requires n <= |uses| && forall i: nat | i < n :: ReplyAt(uses, i) != AnId(id)
    ensures !Begun(uses, n, id, slot) && !Registered(uses, n, id, uploaded)
  {
    if n > 0 {
      NothingUnder(uses, n - 1, id, slot, uploaded);
    }
  }

  lemma NextIsUnused(uses: seq<Use>, n: nat, slot: Slot, uploaded: Uploaded)
    requires n <= |uses| && At(uses, n).draws < TWO_64
    ensures var id := HandleAt(At(uses, n).draws);
            !Begun(uses, n, id, slot) && !Registered(uses, n, id, uploaded)
  {
    var id := HandleAt(At(uses, n).draws);
    forall i: nat | i < n
      ensures ReplyAt(uses, i) != AnId(id)
    {
      if ReplyAt(uses, i).AnId? {
        NotAnsweredBefore(uses, i, n);
      }
    }
    NothingUnder(uses, n, id, slot, uploaded);
  }

  /** What one use lists under an id. */
  lemma UseLists(r: Registry, use: Use, id: int, slot: Slot, uploaded: Uploaded)
    ensures var (answer, t) := Apply(r, use);
            && (id in t.progress && t.progress[id] == slot <==>
                  if (use.BeginStream? || use.BeginProgress?) && answer == AnId(id) then Opens(use, slot)
                  else id in r.progress && r.progress[id] == slot)
            && (id in t.uploads && t.uploads[id] == uploaded <==>
                  if use.Register? && answer == AnId(id) then use == Register(uploaded)
                  else id in r.uploads && r.uploads[id] == uploaded)
  {
  }

  /** One use, with what was listed before it and what is after. */
  lemma SlotStep(r: Registry, use: Use, id: int, slot: Slot, before: bool, after: bool)
    requires before <==> id in r.progress && r.progress[id] == slot
    requires after <==> before || (Apply(r, use).0 == AnId(id) && Opens(use, slot))
    requires before ==> Apply(r, use).0 != AnId(id)
    ensures after <==> id in Apply(r, use).1.progress && Apply(r, use).1.progress[id] == slot
  {
    UseLists(r, use, id, slot, Uploaded(0, []));
  }

  lemma UploadStep(r: Registry, use: Use, handle: int, uploaded: Uploaded, before: bool, after: bool)
    requires before <==> handle in r.uploads && r.uploads[handle] == uploaded
    requires after <==> before || (Apply(r, use).0 == AnId(handle) && use == Register(uploaded))
    requires before ==> Apply(r, use).0 != AnId(handle)
    ensures after <==> handle in Apply(r, use).1.uploads && Apply(r, use).1.uploads[handle] == uploaded
  {
    UseLists(r, use, handle, OfPath(0), uploaded);
  }

  lemma NextAnswerIsUnused(uses: seq<Use>, n: nat, id: int, slot: Slot, uploaded: Uploaded)
    requires n < |uses| && At(uses, n + 1).draws <= TWO_64
    ensures Begun(uses, n, id, slot) || Registered(uses, n, id, uploaded) ==> ReplyAt(uses, n) != AnId(id)
  {
    UseDraws(At(uses, n), uses[n]);
    if ReplyAt(uses, n).AnId? {
      NextIsUnused(uses, n, slot, uploaded);
    }
  }

  lemma {:induction false} SlotListedIff(uses: seq<Use>, n: nat, id: int, slot: Slot)
    requires n <= |uses| && At(uses, n).draws <= TWO_64
    ensures id in At(uses, n).progress && At(uses, n).progress[id] == slot <==> Begun(uses, n, id, slot)
  {
    if n > 0 {
      DrawsGrow(uses, n - 1, n);
      SlotListedIff(uses, n - 1, id, slot);
      NextAnswerIsUnused(uses, n - 1, id, slot, Uploaded(0, []));
      SlotStep(At(uses, n - 1), uses[n - 1], id, slot, Begun(uses, n - 1, id, slot), Begun(uses, n, id, slot));
    }
  }

  lemma {:induction false} UploadListedIff(uses: seq<Use>, n: nat, handle: int, uploaded: Uploaded)
    requires n <= |uses| && At(uses, n).draws <= TWO_64
    ensures handle in At(uses, n).uploads && At(uses, n).uploads[handle] == uploaded <==>
            Registered(uses, n, handle, uploaded)
  {
    if n > 0 {
      DrawsGrow(uses, n - 1, n);
      UploadListedIff(uses, n - 1, handle, uploaded);
      NextAnswerIsUnused(uses, n - 1, handle, OfPath(0), uploaded);
      UploadStep(At(uses, n - 1), uses[n - 1], handle, uploaded,
                 Registered(uses, n - 1, handle, uploaded), Registered(uses, n, handle, uploaded));
    }
  }

  /** A poll is answered a slot if and only if an earlier use opened it under that id; else the id is unknown. */
  lemma PollAnsweredIff(uses: seq<Use>, j: nat, id: int, slot: Slot)
    requires j < |uses| && At(uses, j).draws <= TWO_64 && uses[j] == Use.Progress(id)
    ensures ReplyAt(uses, j) == ASlot(slot) <==> Begun(uses, j, id, slot)
    ensures ReplyAt(uses, j).ASlot? || ReplyAt(uses, j) == Nothing
  {
    SlotListedIff(uses, j, id, slot);
  }

  /** A handle resolves to an upload if and only if one registered it under that handle. */
  lemma HandleAnsweredIff(uses: seq<Use>, j: nat, handle: int, uploaded: Uploaded)
    requires j < |uses| && At(uses, j).draws <= TWO_64 && uses[j] == Get(handle)
    ensures ReplyAt(uses, j) == AnUpload(uploaded) <==> Registered(uses, j, handle, uploaded)
    ensures ReplyAt(uses, j).AnUpload? || ReplyAt(uses, j) == Nothing
  {
    UploadListedIff(uses, j, handle, uploaded);
  }

  lemma {:induction false} ListedStreamWasBegun(uses: seq<Use>, n: nat, id: int)
    requires n <= |uses| && id in At(uses, n).streams
    ensures Begun(uses, n, id, OfStream(At(uses, n).streams[id]))
  {
    if n > 0 {
      if !(uses[n - 1].BeginStream? && ReplyAt(uses, n - 1) == AnId(id)) {
        ListedStreamWasBegun(uses, n - 1, id);
      }
    }
  }

  /** A chunk or a finish is answered no stream but one that was begun under its id. */
  lemma StreamAnsweredWasBegun(uses: seq<Use>, j: nat, id: int)
    requires j < |uses| && (uses[j] == StreamHandle(id) || uses[j] == TakeStream(id))
    ensures ReplyAt(uses, j) != Nothing ==>
              ReplyAt(uses, j).AStream? && Begun(uses, j, id, OfStream(ReplyAt(uses, j).stream))
  {
    if id in At(uses, j).streams {
      ListedStreamWasBegun(uses, j, id);
    }
  }
}
