/**
 What the document of a received markup keeps of it (`native/src/dto/markup.rs`): the kinds, the fields
 each kind has, and that two markups have one document exactly when they differ in nothing a document
 carries.
 */
module MarkupFields {
  import opened Markup
  import opened Utf8
  import opened Wrappers

  // ---------------------------------------------------------------- the kinds

  /** The kinds of inline buttons, */
  predicate IsInlineKind(kind: ButtonKind, t: InlineType) {
    match kind
    case KUrl => t.Url?
    case KWebView => t.WebView?
    case KCallback => t.Callback?
    case KSwitchInline => t.SwitchInline?
    case KGame => t.Game?
    case KPay => t.Buy?
    case KUrlAuth => t.UrlAuth?
    case KInputUrlAuth => t.InputUrlAuth?
    case KUserProfile => t.UserProfile?
    case KInputUserProfile => t.InputUserProfile?
    case KCopy => t.Copy?
    case KDisabled => t.Disabled?
    case _ => false
  }

  /** and of keyboard buttons. */
  predicate IsKeyKind(kind: ButtonKind, t: KeyType) {
    match kind
    case KText => t.Default?
    case KRequestPhone => t.RequestPhone?
    case KRequestGeo => t.RequestGeoLocation?
    case KRequestPoll => t.RequestPoll?
    case KRequestPeer => t.RequestPeer?
    case KInputRequestPeer => t.InputRequestPeer?
    case KSimpleWebView => t.SimpleWebView?
    case _ => false
  }

  predicate IsMarkupKind(kind: MarkupKind, m: ReplyMarkup) {
    match m
    case Inline(_) => kind == KInline
    case Keyboard(_, _, _, _, _, _) => kind == KKeyboard
    case ForceReply(_, _, _) => kind == KForceReply
    case Hide(_) => kind == KHide
  }

  lemma InlineKindIff(b: Button, kind: ButtonKind)
    ensures InlineButtonDto(b).kind == kind <==> IsInlineKind(kind, b.of)
  {
  }

  lemma KeyKindIff(k: Key, kind: ButtonKind)
    ensures KeyboardButtonDto(k).kind == kind <==> IsKeyKind(kind, k.of)
  {
  }

  lemma MarkupKindIff(m: ReplyMarkup, kind: MarkupKind)
    ensures Project(m).kind == kind <==> IsMarkupKind(kind, m)
  {
  }

  // ---------------------------------------------------------------- the fields

  /** Which fields an inline button's document has: its texts, */
  lemma InlineTextsIff(b: Button)
    ensures var d, t := InlineButtonDto(b), b.of;
            && (d.url.Some? <==> t.Url? || t.WebView? || t.UrlAuth? || t.InputUrlAuth?)
            && (d.data.Some? <==> t.Callback? && ValidUtf8(t.data))
            && (d.fwdText.Some? <==> (t.UrlAuth? || t.InputUrlAuth?) && t.fwdText.Some?)
            && (d.query.Some? <==> t.SwitchInline?)
            && (d.copyText.Some? <==> t.Copy?)
            && d.quiz.None? && d.maxQuantity.None?
  {
  }

  /** flags, ids and the peer types, */
  lemma InlineFlagsIff(b: Button)
    ensures var d, t := InlineButtonDto(b), b.of;
            && (d.requiresPassword.Some? <==> t.Callback?)
            && (d.buttonId.Some? <==> t.UrlAuth?)
            && (d.samePeer.Some? <==> t.SwitchInline?)
            && (d.peerTypes.Some? <==> t.SwitchInline? && t.peerTypes.Some?)
            && (d.userId.Some? <==> t.UserProfile?)
            && (d.requestWriteAccess.Some? <==> t.InputUrlAuth?)
  {
  }

  /** and which a keyboard button's has. */
  lemma KeyFieldsIff(k: Key)
    ensures var d, t := KeyboardButtonDto(k), k.of;
            && (d.url.Some? <==> t.SimpleWebView?)
            && (d.quiz.Some? <==> t.RequestPoll? && t.quiz.Some?)
            && (d.buttonId.Some? <==> t.RequestPeer? || t.InputRequestPeer?)
            && (d.maxQuantity.Some? <==> t.RequestPeer? || t.InputRequestPeer?)
            && d.data.None? && d.requiresPassword.None? && d.fwdText.None? && d.query.None? && d.samePeer.None?
            && d.peerTypes.None? && d.userId.None? && d.copyText.None? && d.requestWriteAccess.None?
  {
  }

  /** What a kind of markup does not have reads as nothing. */
  lemma MarkupFieldsIff(m: ReplyMarkup)
    ensures var d := Project(m);
            && (d.rows != [] ==> d.kind in {KInline, KKeyboard})
            && (d.fitSize || d.persistent ==> d.kind == KKeyboard)
            && (d.singleUse || d.placeholder.Some? ==> d.kind in {KKeyboard, KForceReply})
            && (d.selective ==> d.kind in {KKeyboard, KForceReply, KHide})
  {
  }

  // ---------------------------------------------------------------- reading the whole document

  /** The value, or one that stands for what no document says. */
  function Or<T>(o: Option<T>, other: T): (t: T) {
    if o.Some? then o.value else other
  }

  /** An octet that no UTF-8 text has. */
  const BINARY: seq<byte> := [0xFF]

  /** The inline button a document describes, */
  function InlineOf(d: ButtonDto): (b: Button) {
    Button(d.text, None,
           match d.kind
           case KUrl => Url(Or(d.url, []))
           case KWebView => WebView(Or(d.url, []))
           case KCallback => Callback(Or(d.data, BINARY), d.requiresPassword == Some(true))
           case KSwitchInline => SwitchInline(Or(d.query, []), d.samePeer == Some(true), d.peerTypes)
           case KGame => Game
           case KPay => Buy
           case KUrlAuth => UrlAuth(d.fwdText, Or(d.url, []), Or(d.buttonId, 0))
           case KInputUrlAuth => InputUrlAuth(d.fwdText, Or(d.url, []), d.requestWriteAccess == Some(true), 0)
           case KUserProfile => UserProfile(Or(d.userId, 0))
           case KInputUserProfile => InputUserProfile(0)
           case KCopy => Copy(Or(d.copyText, []))
           case _ => Disabled)
  }

  /** the keyboard button one describes, */
  function KeyOf(d: ButtonDto): (k: Key) {
    Key(d.text, None,
        match d.kind
        case KRequestPhone => RequestPhone
        case KRequestGeo => RequestGeoLocation
        case KRequestPoll => RequestPoll(d.quiz)
        case KRequestPeer => RequestPeer(Or(d.buttonId, 0), 0, Or(d.maxQuantity, 0))
        case KInputRequestPeer => InputRequestPeer(Or(d.buttonId, 0), 0, Or(d.maxQuantity, 0))
        case KSimpleWebView => SimpleWebView(Or(d.url, []))
        case _ => Default)
  }

  /** and the markup. */
  function MarkupOf(d: MarkupDto): (m: ReplyMarkup) {
    match d.kind
    case KInline => Inline(MapRows(d.rows, InlineOf))
    case KKeyboard =>
      Keyboard(MapRows(d.rows, KeyOf), d.fitSize, d.singleUse, d.selective, d.persistent, d.placeholder)
    case KForceReply => ForceReply(d.singleUse, d.selective, d.placeholder)
    case KHide => Hide(d.selective)
  }

  /** Equal up to the style, callback data that is not UTF-8, a bot or a user only a client sends, */
  predicate AlikeInline(b: Button, c: Button) {
    && b.text == c.text
    && match (b.of, c.of)
       case (Callback(x, p), Callback(y, q)) => p == q && (x == y || (!ValidUtf8(x) && !ValidUtf8(y)))
       case (InputUrlAuth(f, u, w, _), InputUrlAuth(g, v, x, _)) => f == g && u == v && w == x
       case (InputUserProfile(_), InputUserProfile(_)) => true
       case (t, u) => t == u
  }

  /** or the type of a requested peer. */
  predicate AlikeKey(k: Key, l: Key) {
    && k.text == l.text
    && match (k.of, l.of)
       case (RequestPeer(i, _, n), RequestPeer(j, _, o)) => i == j && n == o
       case (InputRequestPeer(i, _, n), InputRequestPeer(j, _, o)) => i == j && n == o
       case (t, u) => t == u
  }

  ghost predicate AlikeRow<U>(us: seq<U>, vs: seq<U>, alike: (U, U) -> bool) {
    |us| == |vs| && forall j | 0 <= j < |us| :: alike(us[j], vs[j])
  }

  ghost predicate AlikeRows<U>(us: seq<seq<U>>, vs: seq<seq<U>>, alike: (U, U) -> bool) {
    |us| == |vs| && forall i | 0 <= i < |us| :: AlikeRow(us[i], vs[i], alike)
  }

  ghost predicate Alike(m: ReplyMarkup, n: ReplyMarkup) {
    match (m, n)
    case (Inline(us), Inline(vs)) => AlikeRows(us, vs, AlikeInline)
    case (Keyboard(us, _, _, _, _, _), Keyboard(vs, _, _, _, _, _)) =>
      AlikeRows(us, vs, AlikeKey) && m == n.(keys := us)
    case _ => m == n
  }

  lemma InlineReadsBack(b: Button)
    ensures AlikeInline(InlineOf(InlineButtonDto(b)), b)
  {
  }

  lemma KeyReadsBack(k: Key)
    ensures AlikeKey(KeyOf(KeyboardButtonDto(k)), k)
  {
  }

  lemma RowReadsBack<U, D>(us: seq<U>, p: U -> D, q: D -> U, alike: (U, U) -> bool)
    requires forall u :: alike(q(p(u)), u)
    ensures AlikeRow(MapRow(MapRow(us, p), q), us, alike)
  {
    forall j | 0 <= j < |us|
      ensures alike(MapRow(MapRow(us, p), q)[j], us[j])
    {
      assert MapRow(us, p)[j] == p(us[j]);
    }
  }

  lemma RowsReadBack<U, D>(us: seq<seq<U>>, p: U -> D, q: D -> U, alike: (U, U) -> bool)
    requires forall u :: alike(q(p(u)), u)
    ensures AlikeRows(MapRows(MapRows(us, p), q), us, alike)
  {
    forall i | 0 <= i < |us|
      ensures AlikeRow(MapRows(MapRows(us, p), q)[i], us[i], alike)
    {
      RowReadsBack(us[i], p, q, alike);
      assert MapRows(us, p)[i] == MapRow(us[i], p);
    }
  }

  /** A document says everything about its markup but what `Alike` leaves open. */
  lemma ReadsBack(m: ReplyMarkup)
    ensures Alike(MarkupOf(Project(m)), m)
  {
    match m
    case Inline(buttons) =>
      forall b
        ensures AlikeInline(InlineOf(InlineButtonDto(b)), b)
      {
        InlineReadsBack(b);
      }
      RowsReadBack(buttons, InlineButtonDto, InlineOf, AlikeInline);
    case Keyboard(keys, _, _, _, _, _) =>
      forall k
        ensures AlikeKey(KeyOf(KeyboardButtonDto(k)), k)
      {
        KeyReadsBack(k);
      }
      RowsReadBack(keys, KeyboardButtonDto, KeyOf, AlikeKey);
    case _ =>
  }

  // ---------------------------------------------------------------- equal documents

  lemma InlineAlikeIff(b: Button, c: Button)
    ensures InlineButtonDto(b) == InlineButtonDto(c) <==> AlikeInline(b, c)
  {
    InlineReadsBack(b);
    InlineReadsBack(c);
  }

  lemma KeyAlikeIff(k: Key, l: Key)
    ensures KeyboardButtonDto(k) == KeyboardButtonDto(l) <==> AlikeKey(k, l)
  {
    KeyReadsBack(k);
    KeyReadsBack(l);
  }

  lemma RowAlikeIff<U, D>(us: seq<U>, vs: seq<U>, p: U -> D, alike: (U, U) -> bool)
    requires forall u, v :: p(u) == p(v) <==> alike(u, v)
    ensures MapRow(us, p) == MapRow(vs, p) <==> AlikeRow(us, vs, alike)
  {
    if MapRow(us, p) == MapRow(vs, p) {
      forall j | 0 <= j < |us|
        ensures alike(us[j], vs[j])
      {
        assert MapRow(us, p)[j] == p(us[j]) && MapRow(vs, p)[j] == p(vs[j]);
      }
    }
  }

  lemma RowsAlikeIff<U, D>(us: seq<seq<U>>, vs: seq<seq<U>>, p: U -> D, alike: (U, U) -> bool)
    requires forall u, v :: p(u) == p(v) <==> alike(u, v)
    ensures MapRows(us, p) == MapRows(vs, p) <==> AlikeRows(us, vs, alike)
  {
    forall i | 0 <= i < |us| && i < |vs|
      ensures MapRow(us[i], p) == MapRow(vs[i], p) <==> AlikeRow(us[i], vs[i], alike)
    {
      RowAlikeIff(us[i], vs[i], p, alike);
    }
    if MapRows(us, p) == MapRows(vs, p) {
      forall i | 0 <= i < |us|
        ensures AlikeRow(us[i], vs[i], alike)
      {
        assert MapRows(us, p)[i] == MapRow(us[i], p) && MapRows(vs, p)[i] == MapRow(vs[i], p);
      }
    }
  }

  /** Two markups have one document exactly when they are alike. */
  lemma SameDocumentIff(m: ReplyMarkup, n: ReplyMarkup)
    ensures Project(m) == Project(n) <==> Alike(m, n)
  {
    match (m, n)
    case (Inline(us), Inline(vs)) =>
      forall b, c
        ensures InlineButtonDto(b) == InlineButtonDto(c) <==> AlikeInline(b, c)
      {
        InlineAlikeIff(b, c);
      }
      RowsAlikeIff(us, vs, InlineButtonDto, AlikeInline);
    case (Keyboard(us, _, _, _, _, _), Keyboard(vs, _, _, _, _, _)) =>
      forall k, l
        ensures KeyboardButtonDto(k) == KeyboardButtonDto(l) <==> AlikeKey(k, l)
      {
        KeyAlikeIff(k, l);
      }
      RowsAlikeIff(us, vs, KeyboardButtonDto, AlikeKey);
    case _ =>
  }
}
