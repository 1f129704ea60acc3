/**
 Listings by offset: the skip-then-collect pages of participants and profile photos
 (`native/src/ops/chats.rs`, `native/src/ops/files.rs`).
 */
module OffsetWalks {
  import opened Walks
  import opened Wrappers

  // ---------------------------------------------------------------- skip, then collect

  function Clamp(n: int, low: int, high: int): (r: int)
    requires low <= high
    ensures low <= r <= high
  {
    if n < low then low else if n > high then high else n
  }

  function ValueOr(n: Option<int>, default: int): (r: int) {
    if n.Some? then n.value else default
  }

  /** The rows of an index page: `list[offset..min(offset + limit, n)]`. */
  function Slice<T>(list: seq<T>, offset: nat, limit: nat): (rows: seq<T>) {
    Prefix(Suffix(list, offset), limit)
  }

  /** `offset.unwrap_or(0).max(0)`: the index of the first row, a negative one meaning the first. */
  function StartOf(offset: Option<int>): (n: nat) {
    if ValueOr(offset, 0) < 0 then 0 else ValueOr(offset, 0)
  }

  /** What a listing by offset answers to a limit and an offset, given its default and its largest limit. */
  function Page<T>(list: seq<T>, limit: Option<int>, offset: Option<int>, default: nat, most: nat): (rows: seq<T>)
    requires 1 <= most
  {
    Slice(list, StartOf(offset), Clamp(ValueOr(limit, default), 1, most))
  }

  function ParticipantsPage<T>(list: seq<T>, limit: Option<int>, offset: Option<int>): (rows: seq<T>) {
    Page(list, limit, offset, 100, 200)
  }

  function PhotosPage<T>(list: seq<T>, limit: Option<int>, offset: Option<int>): (rows: seq<T>) {
    Page(list, limit, offset, 50, 100)
  }

  method GetParticipants<T>(list: seq<T>, limit: Option<int>, offset: Option<int>) returns (rows: seq<T>, total: nat)
    ensures rows == ParticipantsPage(list, limit, offset)
    ensures total == |list|
  {
    var participants := new Walk(list);
    total := |participants.list|;
    participants.Skip(StartOf(offset));
    rows := participants.CollectPage(Clamp(ValueOr(limit, 100), 1, 200));
  }

  method IterProfilePhotos<T>(list: seq<T>, all: Option<bool>, limit: Option<int>, offset: Option<int>)
    returns (rows: seq<T>)
    ensures all == Some(true) ==> rows == list
    ensures all != Some(true) ==> rows == PhotosPage(list, limit, offset)
  {
    var photos := new Walk(list);
    if all == Some(true) {
      rows := photos.CollectAll();
    } else {
      photos.Skip(StartOf(offset));
      rows := photos.CollectPage(Clamp(ValueOr(limit, 50), 1, 100));
    }
  }

  // ---------------------------------------------------------------- what a page is

  /** The first so many rows from the offset on: the limit asked for, the default, one, or the most. */
  ghost predicate IsPage<T>(rows: seq<T>, list: seq<T>, limit: Option<int>, o: nat, default: nat, most: nat) {
    && (o >= |list| ==> rows == [])
    && (o < |list| ==>
          && rows <= list[o..]
          && (limit == None ==> Fills(|rows|, default, |list| - o))
          && (limit.Some? && 1 <= limit.value <= most ==> Fills(|rows|, limit.value, |list| - o))
          && (limit.Some? && limit.value < 1 ==> |rows| == 1)
          && (limit.Some? && limit.value > most ==> Fills(|rows|, most, |list| - o)))
  }

  lemma PageIs<T>(list: seq<T>, limit: Option<int>, o: nat, default: nat, most: nat)
    requires 1 <= default <= most
    ensures IsPage(Page(list, limit, Some(o), default, most), list, limit, o, default, most)
  {
  }

  /** A page of participants: 100 rows unless another number up to 200 is asked for, from the offset on. */
  lemma ParticipantsPageIs<T>(list: seq<T>, limit: Option<int>, o: int)
    ensures o >= 0 ==> IsPage(ParticipantsPage(list, limit, Some(o)), list, limit, o, 100, 200)
    ensures o < 0 ==> IsPage(ParticipantsPage(list, limit, Some(o)), list, limit, 0, 100, 200)
    ensures IsPage(ParticipantsPage(list, limit, None), list, limit, 0, 100, 200)
  {
    PageIs(list, limit, if o < 0 then 0 else o, 100, 200);
    PageIs(list, limit, 0, 100, 200);
  }

  /** A page of photos: 50 unless another number up to 100 is asked for. */
  lemma PhotosPageIs<T>(list: seq<T>, limit: Option<int>, o: int)
    ensures o >= 0 ==> IsPage(PhotosPage(list, limit, Some(o)), list, limit, o, 50, 100)
    ensures o < 0 ==> IsPage(PhotosPage(list, limit, Some(o)), list, limit, 0, 50, 100)
    ensures IsPage(PhotosPage(list, limit, None), list, limit, 0, 50, 100)
  {
    PageIs(list, limit, if o < 0 then 0 else o, 50, 100);
    PageIs(list, limit, 0, 50, 100);
  }

  // ---------------------------------------------------------------- chained pages

  /** The pages a caller gets by asking each time for the rows after those it has. */
  function IndexPages<T>(list: seq<T>, offset: nat, limits: seq<Option<int>>, default: nat, most: nat)
    : (pages: seq<seq<T>>)
    requires 1 <= most
    decreases |limits|
  {
    if limits == [] then []
    else
      var page := Page(list, limits[0], Some(offset), default, most);
      if page == [] then [] else [page] + IndexPages(list, offset + |page|, limits[1..], default, most)
  }

  /** The rows that many requests can answer. */
  function Budget(limits: seq<Option<int>>, default: nat, most: nat): (n: nat)
    requires 1 <= most
    ensures n >= |limits|
  {
    if limits == [] then 0 else Clamp(ValueOr(limits[0], default), 1, most) + Budget(limits[1..], default, most)
  }

  /** Rows, and those of later requests, are the rows of them all. */
  lemma PageThenRest<T>(rest: seq<T>, limit: nat, budget: nat, later: seq<seq<T>>)
    requires Flatten(later) == Prefix(rest[|Prefix(rest, limit)|..], budget)
    ensures Flatten([Prefix(rest, limit)] + later) == Prefix(rest, limit + budget)
  {
    var page := Prefix(rest, limit);
    assert ([page] + later)[1..] == later;
    PrefixSplits(rest, |page|, limit + budget, limit);
  }

  lemma PageOfRest<T>(list: seq<T>, offset: nat, limit: Option<int>, default: nat, most: nat) returns (page: seq<T>)
    requires 1 <= most && offset <= |list|
    ensures page == Page(list, limit, Some(offset), default, most)
    ensures page == Prefix(list[offset..], Clamp(ValueOr(limit, default), 1, most))
    ensures offset + |page| <= |list| && (page == [] ==> list[offset..] == [])
    ensures list[offset + |page|..] == list[offset..][|page|..]
  {
    page := Page(list, limit, Some(offset), default, most);
    assert offset + |page| <= |list|;
  }

  /**
   Whatever the limits, asked for or left out, in range or not, the pages are the list from their offset
   on, in order, nothing lost or repeated, as far as the requests go.
   */
  lemma {:induction false} IndexPagesTile<T>(
    list: seq<T>, offset: nat, limits: seq<Option<int>>, default: nat, most: nat)
    requires 1 <= most && offset <= |list|
    ensures Flatten(IndexPages(list, offset, limits, default, most)) ==
            Prefix(list[offset..], Budget(limits, default, most))
    decreases |limits|
  {
    if limits != [] {
      var page := PageOfRest(list, offset, limits[0], default, most);
      if page != [] {
        var later := IndexPages(list, offset + |page|, limits[1..], default, most);
        IndexPagesTile(list, offset + |page|, limits[1..], default, most);
        PageThenRest(list[offset..], Clamp(ValueOr(limits[0], default), 1, most),
                     Budget(limits[1..], default, most), later);
        assert IndexPages(list, offset, limits, default, most) == [page] + later;
      }
    }
  }

  /** As many requests as there are rows reach the end of either list, whatever they ask for. */
  lemma PagesReachTheEnd<T>(list: seq<T>, limits: seq<Option<int>>)
    requires |limits| >= |list|
    ensures Flatten(IndexPages(list, 0, limits, 100, 200)) == list == Flatten(IndexPages(list, 0, limits, 50, 100))
  {
    IndexPagesTile(list, 0, limits, 100, 200);
    IndexPagesTile(list, 0, limits, 50, 100);
    assert list[0..] == list;
  }
}
