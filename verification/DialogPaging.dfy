/**
 Dialog listing by cursor (`native/src/ops/dialogs.rs`): the plan, the skip past the cursor, the page
 and the full walk over a forward-only iterator, and when chained pages tile the list.
 */
module DialogPaging {
  import opened Walks
  import opened Wrappers

  /** A row of the listing: the peer's Bot API id, the last message's id and date, and the rest of it. */
  datatype Dialog = Dialog(peer: Option<int>, last: Option<(int, int)>, rest: string)

  datatype Cursor = Cursor(peer: int, id: int, date: int)

  datatype Payload = Payload(
    all: Option<bool>,
    limit: Option<nat>,
    offsetPeer: Option<int>,
    offsetId: Option<int>,
    offsetDate: Option<int>)

  datatype Plan = All | Page(limit: nat, cursor: Option<Cursor>)

  // ---------------------------------------------------------------- specification

  /** The default page size, clamped to 1..100. */
  function Clamped(limit: Option<nat>): (n: nat)
    ensures 1 <= n <= 100
  {
    var n := if limit.Some? then limit.value else 50;
    if n < 1 then 1 else if n > 100 then 100 else n
  }

  /** A cursor is all three values or none. */
  function CursorOf(p: Payload): (c: Option<Cursor>) {
    if p.offsetPeer.Some? && p.offsetId.Some? && p.offsetDate.Some?
    then Some(Cursor(p.offsetPeer.value, p.offsetId.value, p.offsetDate.value))
    else None
  }

  function PlanOf(p: Payload): (plan: Plan) {
    if p.all == Some(true) then All else Page(Clamped(p.limit), CursorOf(p))
  }

  predicate Matches(c: Cursor, d: Dialog) {
    d.peer == Some(c.peer) && d.last == Some((c.id, c.date))
  }

  /** What is left of a list once the cursor's dialog has been passed. */
  function AfterCursor(list: seq<Dialog>, c: Cursor): (rest: seq<Dialog>) {
    if list == [] then []
    else if Matches(c, list[0]) then list[1..]
    else AfterCursor(list[1..], c)
  }

  function Listing(list: seq<Dialog>, p: Payload): (rows: seq<Dialog>) {
    match PlanOf(p)
    case All => list
    case Page(limit, cursor) =>
      Prefix(if cursor.Some? then AfterCursor(list, cursor.value) else list, limit)
  }

  // ---------------------------------------------------------------- the loops of the source

  method SkipPastCursor(dialogs: Walk<Dialog>, cursor: Cursor)
    requires dialogs.Valid()
    modifies dialogs
    ensures dialogs.Valid() && dialogs.Rest() == AfterCursor(old(dialogs.Rest()), cursor)
  {
    while true
      invariant dialogs.Valid()
      invariant AfterCursor(dialogs.Rest(), cursor) == AfterCursor(old(dialogs.Rest()), cursor)
      decreases |dialogs.Rest()|
    {
      var dialog := dialogs.Next();
      if dialog.None? {
        return;
      }
      if Matches(cursor, dialog.value) {
        return;
      }
    }
  }

  method GetDialogs(list: seq<Dialog>, payload: Payload) returns (rows: seq<Dialog>)
    ensures rows == Listing(list, payload)
  {
    var dialogs := new Walk(list);
    match PlanOf(payload)
    case Page(limit, cursor) =>
      if cursor.Some? {
        SkipPastCursor(dialogs, cursor.value);
      }
      rows := dialogs.CollectPage(limit);
    case All =>
      rows := dialogs.CollectAll();
  }

  // ---------------------------------------------------------------- resuming

  /** The cursor a caller reads off a row, when the row has all three values. */
  function KeyOf(d: Dialog): (c: Option<Cursor>) {
    if d.peer.Some? && d.last.Some? then Some(Cursor(d.peer.value, d.last.value.0, d.last.value.1)) else None
  }

  lemma {:induction false} AfterFirstMatch(list: seq<Dialog>, c: Cursor, i: nat)
    requires i < |list| && KeyOf(list[i]) == Some(c)
    requires forall j | 0 <= j < i :: KeyOf(list[j]) != Some(c)
    ensures AfterCursor(list, c) == list[i + 1..]
  {
    if i > 0 {
      assert KeyOf(list[0]) != Some(c);
      assert !Matches(c, list[0]);
      AfterFirstMatch(list[1..], c, i - 1);
    }
  }

  /** The first row with the cursor's key, if any. */
  lemma {:induction false} FirstMatch(list: seq<Dialog>, c: Cursor, i: nat) returns (j: nat)
    requires i < |list| && KeyOf(list[i]) == Some(c)
    ensures j <= i && KeyOf(list[j]) == Some(c)
    ensures forall k | 0 <= k < j :: KeyOf(list[k]) != Some(c)
  {
    if KeyOf(list[0]) == Some(c) {
      j := 0;
    } else {
      var rest := FirstMatch(list[1..], c, i - 1);
      j := rest + 1;
      forall k | 0 <= k < j
        ensures KeyOf(list[k]) != Some(c)
      {
        assert k > 0 ==> list[k] == list[1..][k - 1];
      }
    }
  }

  /** A cursor resumes right after its own dialog exactly when no earlier dialog has the same key. */
  lemma ResumesAfterIff(list: seq<Dialog>, i: nat, c: Cursor)
    requires i < |list| && KeyOf(list[i]) == Some(c)
    ensures AfterCursor(list, c) == list[i + 1..] <==> forall j | 0 <= j < i :: KeyOf(list[j]) != Some(c)
  {
    var j := FirstMatch(list, c, i);
    AfterFirstMatch(list, c, j);
    if j < i {
      assert |list[j + 1..]| > |list[i + 1..]|;
    }
  }

  /** A cursor that names no dialog of the list ends the listing with an empty page. */
  lemma {:induction false} StaleCursorEndsListing(list: seq<Dialog>, p: Payload, c: Cursor)
    requires PlanOf(p).Page? && PlanOf(p).cursor == Some(c)
    requires forall j | 0 <= j < |list| :: KeyOf(list[j]) != Some(c)
    ensures Listing(list, p) == []
  {
    if list != [] {
      assert KeyOf(list[0]) != Some(c);
      StaleCursorEndsListing(list[1..], p, c);
    }
  }

  /** A cursor with a value missing is no cursor: the listing starts from the top again. */
  lemma PartialCursorRestarts(list: seq<Dialog>, p: Payload)
    requires p.all != Some(true)
    requires p.offsetPeer == None || p.offsetId == None || p.offsetDate == None
    ensures Listing(list, p) == Listing(list, p.(offsetPeer := None, offsetId := None, offsetDate := None))
  {
  }

  /** `all` wins over a limit and a cursor. */
  lemma AllWins(list: seq<Dialog>, p: Payload)
    requires p.all == Some(true)
    ensures Listing(list, p) == list
  {
  }

  /** A page is the first rows of what its cursor leaves: the limit asked for, 50, one, or 100. */
  lemma PageIs(list: seq<Dialog>, p: Payload)
    requires p.all != Some(true)
    ensures var rest := if p.offsetPeer.Some? && p.offsetId.Some? && p.offsetDate.Some?
                        then AfterCursor(list, Cursor(p.offsetPeer.value, p.offsetId.value, p.offsetDate.value))
                        else list;
            var rows := Listing(list, p);
            && rows <= rest
            && (p.limit == None ==> Fills(|rows|, 50, |rest|))
            && (p.limit == Some(0) ==> Fills(|rows|, 1, |rest|))
            && (p.limit.Some? && 1 <= p.limit.value <= 100 ==> Fills(|rows|, p.limit.value, |rest|))
            && (p.limit.Some? && p.limit.value > 100 ==> Fills(|rows|, 100, |rest|))
  {
  }

  // ---------------------------------------------------------------- chained pages

  /** The request for a page that resumes after a cursor. */
  function PageRequest(limit: Option<nat>, c: Option<Cursor>): (p: Payload) {
    match c
    case None => Payload(None, limit, None, None, None)
    case Some(k) => Payload(None, limit, Some(k.peer), Some(k.id), Some(k.date))
  }

  /** The pages a caller gets by resuming each request after the last row of the page before it. */
  function Pages(list: seq<Dialog>, c: Option<Cursor>, limits: seq<Option<nat>>): (pages: seq<seq<Dialog>>)
    decreases |limits|
  {
    if limits == [] then []
    else
      var page := Listing(list, PageRequest(limits[0], c));
      if page == [] then [] else [page] + Pages(list, KeyOf(page[|page| - 1]), limits[1..])
  }

  function Budget(limits: seq<Option<nat>>): (n: nat) {
    if limits == [] then 0 else Clamped(limits[0]) + Budget(limits[1..])
  }

  /** Every dialog has a whole key, and no two have the same. */
  ghost predicate Resumable(list: seq<Dialog>) {
    && (forall i | 0 <= i < |list| :: KeyOf(list[i]).Some?)
    && (forall i, j | 0 <= i < j < |list| :: KeyOf(list[i]) != KeyOf(list[j]))
  }

  /** What a request with this cursor reads from. */
  function Remaining(list: seq<Dialog>, c: Option<Cursor>): (rest: seq<Dialog>) {
    if c.Some? then AfterCursor(list, c.value) else list
  }

  /** The cursor stands at position `i`. */
  ghost predicate StandsAt(list: seq<Dialog>, c: Option<Cursor>, i: nat) {
    i <= |list| && Remaining(list, c) == list[i..]
  }

  lemma PageOfRemaining(list: seq<Dialog>, c: Option<Cursor>, limit: Option<nat>)
    ensures Listing(list, PageRequest(limit, c)) == Prefix(Remaining(list, c), Clamped(limit))
    ensures Listing(list, PageRequest(limit, c)) == [] <==> Remaining(list, c) == []
  {
  }

  lemma KeyStandsAfter(list: seq<Dialog>, i: nat)
    requires Resumable(list) && i < |list|
    ensures StandsAt(list, KeyOf(list[i]), i + 1)
  {
    ResumesAfterIff(list, i, KeyOf(list[i]).value);
  }

  /** A page of a resumable list is what stands next, and its last row stands right after it. */
  lemma PageLeadsOn(list: seq<Dialog>, c: Option<Cursor>, i: nat, limits: seq<Option<nat>>)
    returns (page: seq<Dialog>, key: Option<Cursor>)
    requires Resumable(list) && StandsAt(list, c, i) && i < |list| && limits != []
    ensures page == Prefix(Remaining(list, c), Clamped(limits[0])) && 0 < |page| <= |list| - i
    ensures StandsAt(list, key, i + |page|)
    ensures Remaining(list, key) == Remaining(list, c)[|page|..]
    ensures Pages(list, c, limits) == [page] + Pages(list, key, limits[1..])
  {
    PageOfRemaining(list, c, limits[0]);
    page := Listing(list, PageRequest(limits[0], c));
    var last := i + |page| - 1;
    assert page[|page| - 1] == list[last];
    key := KeyOf(list[last]);
    KeyStandsAfter(list, last);
    assert list[i..][|page|..] == list[last + 1..];
  }

  /** Whatever the limits, chained pages of a resumable list are the list, in order, from where they start. */
  lemma {:induction false} PagesTileFrom(list: seq<Dialog>, c: Option<Cursor>, i: nat, limits: seq<Option<nat>>)
    requires Resumable(list) && StandsAt(list, c, i)
    ensures Flatten(Pages(list, c, limits)) == Prefix(Remaining(list, c), Budget(limits))
    decreases |limits|
  {
    if limits != [] && i == |list| {
      PageOfRemaining(list, c, limits[0]);
    } else if limits != [] {
      var page, key := PageLeadsOn(list, c, i, limits);
      PagesTileFrom(list, key, i + |page|, limits[1..]);
      PageThenRest(Remaining(list, c), page, Pages(list, key, limits[1..]), limits);
    }
  }

  lemma PageThenRest(rest: seq<Dialog>, page: seq<Dialog>, later: seq<seq<Dialog>>, limits: seq<Option<nat>>)
    requires limits != [] && page == Prefix(rest, Clamped(limits[0]))
    requires Flatten(later) == Prefix(rest[|page|..], Budget(limits[1..]))
    ensures Flatten([page] + later) == Prefix(rest, Budget(limits))
  {
    FlattenCons(page, later);
    PrefixSplits(rest, |page|, Budget(limits), Clamped(limits[0]));
  }

  lemma FlattenCons<T>(page: seq<T>, rest: seq<seq<T>>)
    ensures Flatten([page] + rest) == page + Flatten(rest)
  {
    assert ([page] + rest)[1..] == rest;
  }

  function Ones(n: nat): (limits: seq<Option<nat>>)
    ensures |limits| == n && Budget(limits) == n
  {
    if n == 0 then [] else [Some(1)] + Ones(n - 1)
  }

  /** A dialog no cursor can resume after: it has no whole key, or an earlier dialog has the same. */
  ghost predicate Stuck(list: seq<Dialog>, b: nat)
    requires b < |list|
  {
    KeyOf(list[b]) == None || exists j | 0 <= j < b :: KeyOf(list[j]) == KeyOf(list[b])
  }

  /** A page of one row at or before the first stuck dialog leads to a page at or before it. */
  lemma StuckStep(list: seq<Dialog>, b: nat, c: Option<Cursor>, p: nat, n: nat) returns (key: Option<Cursor>, next: nat)
    requires b < |list| && Stuck(list, b) && forall i | 0 <= i < b :: !Stuck(list, i)
    requires p <= b && StandsAt(list, c, p) && n > 0
    ensures next <= b && StandsAt(list, key, next)
    ensures Pages(list, c, Ones(n)) == [[list[p]]] + Pages(list, key, Ones(n - 1))
  {
    PageOfRemaining(list, c, Some(1));
    assert Prefix(list[p..], 1) == [list[p]];
    assert Ones(n)[0] == Some(1) && Ones(n)[1..] == Ones(n - 1);
    key := KeyOf(list[p]);
    if key == None {
      assert list[0..] == list;
      next := 0;
    } else {
      var j := FirstMatch(list, key.value, p);
      AfterFirstMatch(list, key.value, j);
      assert p < b ==> !Stuck(list, p);
      next := j + 1;
    }
  }

  /** Before the first stuck dialog, pages of one row go on for ever. */
  lemma {:induction false} StuckPagesNeverEnd(list: seq<Dialog>, b: nat, c: Option<Cursor>, p: nat, n: nat)
    requires b < |list| && Stuck(list, b) && forall i | 0 <= i < b :: !Stuck(list, i)
    requires p <= b && StandsAt(list, c, p)
    ensures |Flatten(Pages(list, c, Ones(n)))| == n
    decreases n
  {
    if n > 0 {
      var key, next := StuckStep(list, b, c, p, n);
      StuckPagesNeverEnd(list, b, key, next, n - 1);
      FlattenCons([list[p]], Pages(list, key, Ones(n - 1)));
    }
  }

  lemma StuckWitness(list: seq<Dialog>) returns (b: nat)
    requires !Resumable(list)
    ensures b < |list| && Stuck(list, b)
  {
    if i: nat :| i < |list| && KeyOf(list[i]) == None {
      b := i;
    } else {
      var i, j :| 0 <= i < j < |list| && KeyOf(list[i]) == KeyOf(list[j]);
      b := j;
    }
  }

  lemma {:induction false} FirstStuck(list: seq<Dialog>, b: nat) returns (f: nat)
    requires b < |list| && Stuck(list, b)
    ensures f <= b && Stuck(list, f) && forall i | 0 <= i < f :: !Stuck(list, i)
    decreases b
  {
    if i: nat :| i < b && Stuck(list, i) {
      f := FirstStuck(list, i);
    } else {
      f := b;
    }
  }

  /**
   Chained pages tile the list for every choice of limits (no row lost, repeated or out of order, the
   chain ending with the list) exactly when every dialog has a whole key and the keys are distinct.
   */
  lemma PagesTileIff(list: seq<Dialog>)
    ensures (forall limits :: Flatten(Pages(list, None, limits)) == Prefix(list, Budget(limits))) <==> Resumable(list)
  {
    assert list[0..] == list;
    if Resumable(list) {
      forall limits
        ensures Flatten(Pages(list, None, limits)) == Prefix(list, Budget(limits))
      {
        PagesTileFrom(list, None, 0, limits);
      }
    } else {
      var b := StuckWitness(list);
      var f := FirstStuck(list, b);
      StuckPagesNeverEnd(list, f, None, 0, |list| + 1);
      assert |Flatten(Pages(list, None, Ones(|list| + 1)))| != |Prefix(list, Budget(Ones(|list| + 1)))|;
    }
  }

  /** Enough pages of a resumable list are what the unbounded walk returns. */
  lemma {:induction false} PagesEqualAll(list: seq<Dialog>, limits: seq<Option<nat>>)
    requires Resumable(list) && Budget(limits) >= |list|
    ensures Flatten(Pages(list, None, limits)) == Listing(list, Payload(Some(true), None, None, None, None))
  {
    assert list[0..] == list;
    PagesTileFrom(list, None, 0, limits);
  }
}
