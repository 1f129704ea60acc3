/**
 Blocked peers: single pages and the walk over all of them (`native/src/ops/contacts.rs`), and the
 resolution of an entry against the objects that came along (`native/src/dto/contacts.rs`).
 */
module BlockedPeers {
  import opened Wrappers
  import opened OffsetWalks
  import Walks

  // ---------------------------------------------------------------- resolving an entry

  datatype Kind = UserKind | ChatKind | ChannelKind

  /** A layer peer: its kind and its bare id, which the current account's own peer does not have. */
  datatype Peer = Peer(kind: Kind, bare: Option<int>)

  datatype Account = Account(id: int, name: string)

  /** A basic group or a channel; the layer sends both in one list. */
  datatype Group = Group(channel: bool, id: int, title: string)

  datatype Resolved = AccountRow(account: Account) | GroupRow(group: Group)

  datatype Entry = Entry(peer: Peer, date: int)
  datatype Row = Row(millis: int, resolved: Resolved)

  /** The users and the chats of an answer. */
  datatype Objects = Objects(users: seq<Account>, chats: seq<Group>)

  function FindAccount(users: seq<Account>, id: int): (r: Option<Account>) {
    if users == [] then None else if users[0].id == id then Some(users[0]) else FindAccount(users[1..], id)
  }

  /** `find(|chat| chat.id() == bare)`: the bare id alone decides. */
  function FindGroup(chats: seq<Group>, id: int): (r: Option<Group>) {
    if chats == [] then None else if chats[0].id == id then Some(chats[0]) else FindGroup(chats[1..], id)
  }

  /** `contact_peer_dto`: the first object of the answer with the peer's bare id. */
  function Resolve(peer: Peer, o: Objects): (r: Option<Resolved>) {
    match peer.bare
    case None => None
    case Some(id) =>
      if peer.kind.UserKind? then
        (match FindAccount(o.users, id) case None => None case Some(a) => Some(AccountRow(a)))
      else
        (match FindGroup(o.chats, id) case None => None case Some(g) => Some(GroupRow(g)))
  }

  function KindOf(g: Group): (k: Kind) {
    if g.channel then ChannelKind else ChatKind
  }

  /** Who a row is: its kind and its bare id. */
  function Identity(r: Resolved): (p: Peer) {
    match r
    case AccountRow(a) => Peer(UserKind, Some(a.id))
    case GroupRow(g) => Peer(KindOf(g), Some(g.id))
  }

  lemma {:induction false} FindAccountFinds(users: seq<Account>, id: int)
    ensures match FindAccount(users, id)
            case Some(a) => a in users && a.id == id
            case None => forall a | a in users :: a.id != id
  {
    if users != [] {
      FindAccountFinds(users[1..], id);
    }
  }

  lemma {:induction false} FindGroupFinds(chats: seq<Group>, id: int)
    ensures match FindGroup(chats, id)
            case Some(g) => g in chats && g.id == id
            case None => forall g | g in chats :: g.id != id
  {
    if chats != [] {
      FindGroupFinds(chats[1..], id);
    }
  }

  /** The first user with an id, */
  ghost predicate AccountAt(users: seq<Account>, i: nat, id: int, a: Account) {
    i < |users| && users[i] == a && a.id == id && forall j | 0 <= j < i :: users[j].id != id
  }

  /** and the first chat. */
  ghost predicate GroupAt(chats: seq<Group>, i: nat, id: int, g: Group) {
    i < |chats| && chats[i] == g && g.id == id && forall j | 0 <= j < i :: chats[j].id != id
  }

  lemma {:induction false} FindAccountIff(users: seq<Account>, id: int, a: Account)
    ensures FindAccount(users, id) == Some(a) <==> exists i: nat :: AccountAt(users, i, id, a)
  {
    if users != [] {
      var rest := users[1..];
      FindAccountIff(rest, id, a);
      if users[0].id == id {
        assert AccountAt(users, 0, id, users[0]);
      } else if i: nat :| AccountAt(rest, i, id, a) {
        assert forall j | 0 < j <= i :: users[j] == rest[j - 1];
        assert AccountAt(users, i + 1, id, a);
      } else if i: nat :| AccountAt(users, i, id, a) {
        assert forall j | 0 <= j < i - 1 :: rest[j] == users[j + 1];
        assert AccountAt(rest, i - 1, id, a);
      }
    }
  }

  lemma {:induction false} FindGroupIff(chats: seq<Group>, id: int, g: Group)
    ensures FindGroup(chats, id) == Some(g) <==> exists i: nat :: GroupAt(chats, i, id, g)
  {
    if chats != [] {
      var rest := chats[1..];
      FindGroupIff(rest, id, g);
      if chats[0].id == id {
        assert GroupAt(chats, 0, id, chats[0]);
      } else if i: nat :| GroupAt(rest, i, id, g) {
        assert forall j | 0 < j <= i :: chats[j] == rest[j - 1];
        assert GroupAt(chats, i + 1, id, g);
      } else if i: nat :| GroupAt(chats, i, id, g) {
        assert forall j | 0 <= j < i - 1 :: rest[j] == chats[j + 1];
        assert GroupAt(rest, i - 1, id, g);
      }
    }
  }

  /** An entry resolves to the first object with its bare id, among the users or among the chats. */
  lemma ResolvesToFirstIff(peer: Peer, o: Objects, r: Resolved)
    ensures Resolve(peer, o) == Some(r) <==>
            && peer.bare.Some?
            && match r
               case AccountRow(a) => peer.kind.UserKind? && exists i: nat :: AccountAt(o.users, i, peer.bare.value, a)
               case GroupRow(g) => !peer.kind.UserKind? && exists i: nat :: GroupAt(o.chats, i, peer.bare.value, g)
  {
    if peer.bare.Some? {
      match r
      case AccountRow(a) => FindAccountIff(o.users, peer.bare.value, a);
      case GroupRow(g) => FindGroupIff(o.chats, peer.bare.value, g);
    }
  }

  /** The first chat with the id is of the kind. */
  ghost predicate FirstIsOfKind(chats: seq<Group>, id: int, kind: Kind) {
    exists i ::
      && 0 <= i < |chats| && chats[i].id == id && KindOf(chats[i]) == kind
      && forall j | 0 <= j < i :: chats[j].id != id
  }

  lemma {:induction false} FirstIsFound(chats: seq<Group>, id: int, kind: Kind)
    ensures FirstIsOfKind(chats, id, kind) <==>
            FindGroup(chats, id).Some? && KindOf(FindGroup(chats, id).value) == kind
  {
    if chats != [] {
      var rest := chats[1..];
      FirstIsFound(rest, id, kind);
      if chats[0].id != id && FirstIsOfKind(rest, id, kind) {
        var i :|
          && 0 <= i < |rest| && rest[i].id == id && KindOf(rest[i]) == kind
          && forall j | 0 <= j < i :: rest[j].id != id;
        assert chats[i + 1].id == id && forall j | 0 <= j < i + 1 :: chats[j].id != id;
      }
      if chats[0].id != id && FirstIsOfKind(chats, id, kind) {
        var i :|
          && 0 <= i < |chats| && chats[i].id == id && KindOf(chats[i]) == kind
          && forall j | 0 <= j < i :: chats[j].id != id;
        assert rest[i - 1].id == id && forall j | 0 <= j < i - 1 :: rest[j].id != id;
      }
      if chats[0].id == id {
        assert FirstIsOfKind(chats, id, kind) <==> KindOf(chats[0]) == kind;
      }
    }
  }

  /**
   An entry resolves to the very peer it names if and only if a user with its id came along, for a user,
   and otherwise the first chat with its bare id, of either kind, is of its kind.
   */
  lemma ResolvesToItsPeerIff(peer: Peer, o: Objects)
    ensures (Resolve(peer, o).Some? && Identity(Resolve(peer, o).value) == peer) <==>
            && peer.bare.Some?
            && if peer.kind.UserKind? then exists a :: a in o.users && a.id == peer.bare.value
               else FirstIsOfKind(o.chats, peer.bare.value, peer.kind)
  {
    if peer.bare.Some? {
      FindAccountFinds(o.users, peer.bare.value);
      FindGroupFinds(o.chats, peer.bare.value);
      FirstIsFound(o.chats, peer.bare.value, peer.kind);
    }
  }

  /** It may be the wrong peer: a channel's entry becomes the basic group that shares its bare id. */
  lemma BareIdsCollide()
    ensures var entry := Peer(ChannelKind, Some(5));
            var group, channel := Group(false, 5, "group"), Group(true, 5, "channel");
            && Resolve(entry, Objects([], [channel])) == Some(GroupRow(channel))
            && Resolve(entry, Objects([], [group, channel])) == Some(GroupRow(group))
            && Identity(GroupRow(group)) == Peer(ChatKind, Some(5))
  {
  }

  // ---------------------------------------------------------------- projecting

  /** `project_blocked`: the entries that resolve, in order. */
  function Project(entries: seq<Entry>, o: Objects): (rows: seq<Row>) {
    if entries == [] then []
    else
      var rest := Project(entries[1..], o);
      match Resolve(entries[0].peer, o)
      case None => rest
      case Some(r) => [Row(entries[0].date * 1000, r)] + rest
  }

  method ProjectBlocked(entries: seq<Entry>, o: Objects) returns (rows: seq<Row>)
    ensures rows == Project(entries, o)
  {
    rows := [];
    var pending := entries;
    while pending != []
      invariant rows + Project(pending, o) == Project(entries, o)
      decreases |pending|
    {
      match Resolve(pending[0].peer, o) {
        case None =>
        case Some(r) => rows := rows + [Row(pending[0].date * 1000, r)];
      }
      pending := pending[1..];
    }
  }

  // ---------------------------------------------------------------- the server, a page and the walk

  /** `MAX_CONTACTS_LIMIT`. */
  const LIMIT: nat := 100

  /** A server with a fixed list: the objects it sends along with an offset and a limit, and in which form. */
  datatype Server = Server(list: seq<Entry>, objects: (nat, nat) -> Objects, sliced: (nat, nat) -> bool)

  /** The full list, or a slice that also carries the count. */
  datatype Answer =
    | Blocked(blocked: seq<Entry>, objects: Objects)
    | BlockedSlice(count: nat, blocked: seq<Entry>, objects: Objects)

  function Invoke(server: Server, offset: nat, limit: nat): (a: Answer) {
    var page := Slice(server.list, offset, if limit < LIMIT then limit else LIMIT);
    if server.sliced(offset, limit) then BlockedSlice(|server.list|, page, server.objects(offset, limit))
    else Blocked(page, server.objects(offset, limit))
  }

  /** `get_blocked_page` with the limit of `blocked_plan`; the count is `None` for an answer in full. */
  method GetBlockedPage(server: Server, offset: nat, limit: Option<int>) returns (rows: seq<Row>, count: Option<nat>)
    ensures var n := Clamp(ValueOr(limit, 100), 1, 100);
            && rows == Project(Slice(server.list, offset, n), server.objects(offset, n))
            && count == if server.sliced(offset, n) then Some(|server.list|) else None
  {
    var answer := Invoke(server, offset, Clamp(ValueOr(limit, LIMIT), 1, LIMIT));
    count := if answer.BlockedSlice? then Some(answer.count) else None;
    rows := ProjectBlocked(answer.blocked, answer.objects);
  }

  function Both(a: Objects, b: Objects): (o: Objects) {
    Objects(a.users + b.users, a.chats + b.chats)
  }

  /** The objects sent along with the pages at `offset`, `offset + 100`, ... up to the short page. */
  function ObjectsFrom(server: Server, offset: nat): (o: Objects)
    decreases |server.list| - offset
  {
    Both(server.objects(offset, LIMIT),
         if offset + LIMIT <= |server.list| then ObjectsFrom(server, offset + LIMIT) else Objects([], []))
  }

  /**
   `get_all_blocked`. The list's length is the layer's count, an `i32`; under that bound the offset
   never leaves `i32`, and the walk makes one request per full page and one more.
   */
  method GetAllBlocked(server: Server) returns (rows: seq<Row>, requests: nat, offset: int)
    requires |server.list| < 0x8000_0000
    ensures rows == Project(server.list, ObjectsFrom(server, 0))
    ensures requests == |server.list| / 100 + 1
    ensures offset == |server.list| / 100 * 100 < 0x8000_0000
  {
    var blocked, o;
    blocked, o, requests, offset := WalkBlocked(server);
    rows := ProjectBlocked(blocked, o);
  }

  /** The loop of the walk: advance by what each page returned until one comes back short. */
  method WalkBlocked(server: Server) returns (blocked: seq<Entry>, o: Objects, requests: nat, offset: int)
    requires |server.list| < 0x8000_0000
    ensures blocked == server.list && o == ObjectsFrom(server, 0)
    ensures requests == |server.list| / 100 + 1
    ensures offset == |server.list| / 100 * 100 < 0x8000_0000
  {
    blocked, o := [], Objects([], []);
    offset, requests := 0, 0;
    while true
      invariant offset == requests * LIMIT <= |server.list|
      invariant blocked == server.list[..offset]
      invariant Both(o, ObjectsFrom(server, offset)) == ObjectsFrom(server, 0)
      decreases |server.list| - offset
    {
      var page := Invoke(server, offset, LIMIT);
      PageAt(server, offset);
      ObjectsStep(server, offset, o);
      requests := requests + 1;
      blocked := blocked + page.blocked;
      o := Both(o, page.objects);
      if |page.blocked| < LIMIT {
        assert offset + |page.blocked| == |server.list| && |server.list| - offset < LIMIT;
        FullPages(|server.list|, requests - 1);
        return;
      }
      offset := offset + |page.blocked|;
    }
  }

  lemma FullPages(total: nat, pages: nat)
    requires pages * LIMIT <= total < pages * LIMIT + LIMIT
    ensures total / 100 == pages
  {
  }

  /** The objects collected so far and those still to come, across one page. */
  lemma ObjectsStep(server: Server, offset: nat, o: Objects)
    requires offset <= |server.list|
    ensures Both(o, ObjectsFrom(server, offset)) ==
            if offset + LIMIT <= |server.list|
            then Both(Both(o, server.objects(offset, LIMIT)), ObjectsFrom(server, offset + LIMIT))
            else Both(o, server.objects(offset, LIMIT))
  {
  }

  /** A page is full exactly while 100 rows are left. */
  lemma PageAt(server: Server, offset: nat)
    requires offset <= |server.list|
    ensures var page := Invoke(server, offset, LIMIT).blocked;
            && |page| == (if offset + LIMIT <= |server.list| then LIMIT else |server.list| - offset)
            && server.list[..offset] + page == server.list[..offset + |page|]
  {
  }

  // ---------------------------------------------------------------- one entry, on a page and in the walk

  /** The page at this offset with this limit holds the entry at index `i`. */
  predicate OnPage(server: Server, offset: nat, limit: nat, i: nat) {
    1 <= limit <= LIMIT && offset <= i < offset + limit && i < |server.list|
  }

  ghost predicate ResolvesOn(server: Server, offset: nat, limit: nat, i: nat)
    requires OnPage(server, offset, limit, i)
  {
    Resolve(server.list[i].peer, server.objects(offset, limit)).Some?
  }

  /** What a page sends along resolves an entry of it, or no page that holds the entry does. */
  ghost predicate Uniform(server: Server) {
    forall i, offset, limit, offset2, limit2 ::
      OnPage(server, offset, limit, i) && OnPage(server, offset2, limit2, i) && ResolvesOn(server, offset, limit, i) ==>
        ResolvesOn(server, offset2, limit2, i)
  }

  ghost predicate Included(a: Objects, b: Objects) {
    (forall u | u in a.users :: u in b.users) && (forall g | g in a.chats :: g in b.chats)
  }

  lemma {:induction false} ObjectsOfPage(server: Server, from: nat, offset: nat)
    requires from <= offset <= |server.list| && (offset - from) % LIMIT == 0
    ensures Included(server.objects(offset, LIMIT), ObjectsFrom(server, from))
    decreases offset - from
  {
    if from < offset {
      ObjectsOfPage(server, from + LIMIT, offset);
    }
  }

  /** More objects resolve at least as much. */
  lemma MoreObjectsResolve(peer: Peer, some: Objects, all: Objects)
    requires Included(some, all) && Resolve(peer, some).Some?
    ensures Resolve(peer, all).Some?
  {
    var id := peer.bare.value;
    FindAccountFinds(some.users, id);
    FindAccountFinds(all.users, id);
    FindGroupFinds(some.chats, id);
    FindGroupFinds(all.chats, id);
  }

  /** Whatever the offset and the limit, an entry its page resolves is resolved in the walk. */
  lemma WalkResolves(server: Server, offset: nat, limit: nat, i: nat)
    requires Uniform(server) && OnPage(server, offset, limit, i) && ResolvesOn(server, offset, limit, i)
    ensures Resolve(server.list[i].peer, ObjectsFrom(server, 0)).Some?
  {
    var own := i / LIMIT * LIMIT;
    assert OnPage(server, own, LIMIT, i) && ResolvesOn(server, own, LIMIT, i);
    ObjectsOfPage(server, 0, own);
    MoreObjectsResolve(server.list[i].peer, server.objects(own, LIMIT), ObjectsFrom(server, 0));
  }

  /** Two objects of one kind with one id are the same object. */
  ghost predicate Consistent(a: Objects, b: Objects) {
    && (forall u, v | u in a.users && v in b.users && u.id == v.id :: u == v)
    && (forall g, h | g in a.chats && h in b.chats && g.id == h.id && g.channel == h.channel :: g == h)
  }

  /** The first chats with the entry's bare id are of one kind. */
  predicate SameKind(peer: Peer, a: Objects, b: Objects) {
    peer.kind.UserKind? || peer.bare.None? ||
    match (FindGroup(a.chats, peer.bare.value), FindGroup(b.chats, peer.bare.value))
    case (Some(g), Some(h)) => g.channel == h.channel
    case _ => false
  }

  /** Two lots of objects that both resolve an entry give the same row exactly when the kinds agree. */
  lemma SameRowIff(peer: Peer, a: Objects, b: Objects)
    requires Consistent(a, b) && Resolve(peer, a).Some? && Resolve(peer, b).Some?
    ensures Resolve(peer, a) == Resolve(peer, b) <==> SameKind(peer, a, b)
    ensures Identity(Resolve(peer, a).value) == Identity(Resolve(peer, b).value) <==> SameKind(peer, a, b)
  {
    var id := peer.bare.value;
    FindAccountFinds(a.users, id);
    FindAccountFinds(b.users, id);
    FindGroupFinds(a.chats, id);
    FindGroupFinds(b.chats, id);
  }

  // ---------------------------------------------------------------- a whole page in the walk

  /** The entries that resolve. */
  function Kept(entries: seq<Entry>, o: Objects): (kept: seq<Entry>) {
    if entries == [] then []
    else (if Resolve(entries[0].peer, o).Some? then [entries[0]] else []) + Kept(entries[1..], o)
  }

  lemma {:induction false} ProjectConcat(a: seq<Entry>, b: seq<Entry>, o: Objects)
    ensures Project(a + b, o) == Project(a, o) + Project(b, o)
  {
    if a == [] {
      assert a + b == b;
      assert [] + Project(b, o) == Project(b, o);
    } else {
      assert (a + b)[1..] == a[1..] + b;
      ProjectConcat(a[1..], b, o);
    }
  }

  /** `small`'s rows occur in `big`, in order. */
  ghost predicate Embeds(small: seq<Row>, big: seq<Row>)
    decreases |big|
  {
    small == [] || (big != [] && ((small[0] == big[0] && Embeds(small[1..], big[1..])) || Embeds(small, big[1..])))
  }

  /** Entries that all resolve give one row each. */
  lemma {:induction false} ProjectEach(kept: seq<Entry>, o: Objects)
    requires forall e | e in kept :: Resolve(e.peer, o).Some?
    ensures |Project(kept, o)| == |kept|
    ensures forall i | 0 <= i < |kept| ::
              Project(kept, o)[i] == Row(kept[i].date * 1000, Resolve(kept[i].peer, o).value)
  {
    if kept != [] {
      assert kept[0] in kept;
      ProjectEach(kept[1..], o);
    }
  }

  lemma {:induction false} KeptIsProjected(entries: seq<Entry>, o: Objects)
    ensures Project(Kept(entries, o), o) == Project(entries, o)
    ensures forall e | e in Kept(entries, o) :: e in entries && Resolve(e.peer, o).Some?
  {
    if entries != [] {
      KeptIsProjected(entries[1..], o);
      assert Resolve(entries[0].peer, o).Some? ==> ([entries[0]] + Kept(entries[1..], o))[1..] == Kept(entries[1..], o);
      assert [] + Kept(entries[1..], o) == Kept(entries[1..], o);
    }
  }

  lemma {:induction false} KeptEmbeds(entries: seq<Entry>, some: Objects, all: Objects)
    requires forall e | e in entries && Resolve(e.peer, some).Some? :: Resolve(e.peer, all).Some?
    ensures Embeds(Project(Kept(entries, some), all), Project(entries, all))
  {
    if entries != [] {
      var e, rest := entries[0], entries[1..];
      assert e in entries;
      KeptEmbeds(rest, some, all);
      var later := Kept(rest, some);
      if Resolve(e.peer, some).Some? {
        assert Kept(entries, some) == [e] + later && ([e] + later)[1..] == later;
        KeptHead(e, later, rest, all);
      } else {
        assert Kept(entries, some) == later;
        assert Resolve(e.peer, all).Some? ==> Project(entries, all)[1..] == Project(rest, all);
      }
    }
  }

  lemma KeptHead(e: Entry, later: seq<Entry>, rest: seq<Entry>, all: Objects)
    requires Resolve(e.peer, all).Some? && Embeds(Project(later, all), Project(rest, all))
    ensures Embeds(Project([e] + later, all), Project([e] + rest, all))
  {
    assert ([e] + later)[1..] == later && ([e] + rest)[1..] == rest;
    var row := Row(e.date * 1000, Resolve(e.peer, all).value);
    assert Project([e] + later, all) == [row] + Project(later, all);
    assert Project([e] + rest, all) == [row] + Project(rest, all);
    assert ([row] + Project(later, all))[1..] == Project(later, all);
    assert ([row] + Project(rest, all))[1..] == Project(rest, all);
  }

  lemma SameRowsIff(kept: seq<Entry>, a: Objects, b: Objects)
    requires Consistent(a, b)
    requires forall e | e in kept :: Resolve(e.peer, a).Some? && Resolve(e.peer, b).Some?
    ensures Project(kept, a) == Project(kept, b) <==> forall e | e in kept :: SameKind(e.peer, a, b)
  {
    ProjectEach(kept, a);
    ProjectEach(kept, b);
    forall e | e in kept
      ensures Resolve(e.peer, a) == Resolve(e.peer, b) <==> SameKind(e.peer, a, b)
    {
      SameRowIff(e.peer, a, b);
    }
    if Project(kept, a) == Project(kept, b) {
      forall e | e in kept
        ensures Resolve(e.peer, a) == Resolve(e.peer, b)
      {
        var i :| 0 <= i < |kept| && kept[i] == e;
        assert Project(kept, a)[i] == Project(kept, b)[i];
      }
    }
  }

  /**
   For every offset and every limit a caller may ask for: the walk's rows are those before the page, the
   page's entries resolved against every object the walk was sent, and those after; every entry the page
   resolves has its row there, in order; and these are the page's own rows if and only if, for each of
   them, the first chats with its bare id on the page and in the walk are of one kind.
   */
  lemma WalkKeepsPage(server: Server, offset: nat, limit: nat)
    requires 1 <= limit <= LIMIT && Uniform(server)
    requires Consistent(server.objects(offset, limit), ObjectsFrom(server, 0))
    ensures var own, all := server.objects(offset, limit), ObjectsFrom(server, 0);
            var page := Invoke(server, offset, limit).blocked;
            var kept := Kept(page, own);
            && Project(server.list, all) ==
               Project(Walks.Prefix(server.list, offset), all) + Project(page, all)
               + Project(Walks.Suffix(server.list, offset + limit), all)
            && Project(kept, own) == Project(page, own) && |Project(kept, all)| == |Project(kept, own)|
            && Embeds(Project(kept, all), Project(page, all))
            && (Project(kept, all) == Project(page, own) <==> forall e | e in kept :: SameKind(e.peer, own, all))
  {
    var own, all := server.objects(offset, limit), ObjectsFrom(server, 0);
    var page := Invoke(server, offset, limit).blocked;
    var kept := Kept(page, own);
    PageInList(server, offset, limit);
    ProjectConcat(Walks.Prefix(server.list, offset), page, all);
    ProjectConcat(Walks.Prefix(server.list, offset) + page, Walks.Suffix(server.list, offset + limit), all);
    KeptIsProjected(page, own);
    PageResolvesInWalk(server, offset, limit);
    KeptEmbeds(page, own, all);
    ProjectEach(kept, own);
    ProjectEach(kept, all);
    SameRowsIff(kept, own, all);
  }

  lemma PageInList(server: Server, offset: nat, limit: nat)
    requires 1 <= limit <= LIMIT
    ensures Walks.Prefix(server.list, offset) + Invoke(server, offset, limit).blocked
            + Walks.Suffix(server.list, offset + limit) == server.list
  {
  }

  lemma PageResolvesInWalk(server: Server, offset: nat, limit: nat)
    requires 1 <= limit <= LIMIT && Uniform(server)
    ensures forall e |
              e in Invoke(server, offset, limit).blocked && Resolve(e.peer, server.objects(offset, limit)).Some? ::
              Resolve(e.peer, ObjectsFrom(server, 0)).Some?
  {
    var page := Invoke(server, offset, limit).blocked;
    forall e | e in page && Resolve(e.peer, server.objects(offset, limit)).Some?
      ensures Resolve(e.peer, ObjectsFrom(server, 0)).Some?
    {
      var k :| 0 <= k < |page| && page[k] == e;
      assert server.list[offset + k] == e && OnPage(server, offset, limit, offset + k);
      assert ResolvesOn(server, offset, limit, offset + k);
      WalkResolves(server, offset, limit, offset + k);
    }
  }

  /** The page that the walk itself requests needs no such server: what it sends is part of what the walk has. */
  lemma OwnPageIsResolved(server: Server, offset: nat, peer: Peer)
    requires offset <= |server.list| && offset % LIMIT == 0
    requires Resolve(peer, server.objects(offset, LIMIT)).Some?
    ensures Resolve(peer, ObjectsFrom(server, 0)).Some?
  {
    ObjectsOfPage(server, 0, offset);
    MoreObjectsResolve(peer, server.objects(offset, LIMIT), ObjectsFrom(server, 0));
  }
}
