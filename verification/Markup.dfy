/**
 Reply markups: `native/src/ops/markup.rs` builds one from a spec, `native/src/dto/markup.rs` projects
 one into a document, and a document is read back as a spec. A text is the bytes of its UTF-8 form, as
 in a Rust `String`; the raw markups are the TL layer's, so a received one may carry what no spec can.
 */
module Markup {
  import opened Utf8
  import opened Wrappers

  // ---------------------------------------------------------------- specs

  datatype InlineButtonSpec =
    | UrlSpec(text: Text, url: Text)
    | WebViewSpec(text: Text, url: Text)
    | CallbackSpec(text: Text, data: Text)
    | SwitchInlineSpec(text: Text, query: Text, samePeer: Option<bool>)

  datatype KeyboardButtonSpec =
    | TextSpec(text: Text)
    | RequestPhoneSpec(text: Text)
    | RequestGeoSpec(text: Text)
    | RequestPollSpec(text: Text, quiz: bool)

  datatype MarkupSpec =
    | InlineSpec(buttons: seq<seq<InlineButtonSpec>>)
    | KeyboardSpec(keys: seq<seq<KeyboardButtonSpec>>, fitSize: bool, singleUse: bool, selective: bool)
    | ForceReplySpec(singleUse: bool, selective: bool)
    | HideSpec(selective: bool)

  // ---------------------------------------------------------------- raw markups

  datatype PeerType = SameBotPm | Pm | Chat | Megagroup | Broadcast | BotPm

  datatype InlineType =
    | Url(url: Text)
    | WebView(url: Text)
    | Callback(data: seq<byte>, requiresPassword: bool)
    | SwitchInline(query: Text, samePeer: bool, peerTypes: Option<seq<PeerType>>)
    | Game
    | Buy
    | UrlAuth(fwdText: Option<Text>, url: Text, buttonId: int)
    | InputUrlAuth(fwdText: Option<Text>, url: Text, requestWriteAccess: bool, bot: int)
    | UserProfile(userId: int)
    | InputUserProfile(user: int)
    | Copy(copyText: Text)
    | Disabled

  datatype KeyType =
    | Default
    | RequestPhone
    | RequestGeoLocation
    | RequestPoll(quiz: Option<bool>)
    | RequestPeer(buttonId: int, peer: int, maxQuantity: int)
    | InputRequestPeer(buttonId: int, peer: int, maxQuantity: int)
    | SimpleWebView(url: Text)

  /** `style` stands for the layer's button style, which neither side of the bridge reads. */
  datatype Button = Button(text: Text, style: Option<int>, of: InlineType)
  datatype Key = Key(text: Text, style: Option<int>, of: KeyType)

  datatype ReplyMarkup =
    | Inline(buttons: seq<seq<Button>>)
    | Keyboard(
        keys: seq<seq<Key>>, resize: bool, singleUse: bool, selective: bool, persistent: bool,
        placeholder: Option<Text>)
    | ForceReply(singleUse: bool, selective: bool, placeholder: Option<Text>)
    | Hide(selective: bool)

  // ---------------------------------------------------------------- building

  datatype Error =
    | NoRows
    | RowHasNoButtons(index: nat)
    | EmptyLabel
    | EmptyCallbackData
    | CallbackDataTooLong(length: nat)
    | InvalidPayload

  const CALLBACK_DATA_LIMIT := 64

  function Label(text: Text): (r: Result<Text, Error>) {
    if text == [] then Err(EmptyLabel) else Ok(text)
  }

  function CallbackData(data: Text): (r: Result<seq<byte>, Error>) {
    if data == [] then Err(EmptyCallbackData)
    else if |data| > CALLBACK_DATA_LIMIT then Err(CallbackDataTooLong(|data|))
    else Ok(data)
  }

  function InlineButton(spec: InlineButtonSpec): (r: Result<Button, Error>) {
    match spec
    case UrlSpec(text, url) =>
      var l :- Label(text);
      Ok(Button(l, None, Url(url)))
    case WebViewSpec(text, url) =>
      var l :- Label(text);
      Ok(Button(l, None, WebView(url)))
    case CallbackSpec(text, data) =>
      var l :- Label(text);
      var d :- CallbackData(data);
      Ok(Button(l, None, Callback(d, false)))
    case SwitchInlineSpec(text, query, samePeer) =>
      var l :- Label(text);
      Ok(Button(l, None, SwitchInline(query, samePeer.None? || samePeer.value, None)))
  }

  function KeyboardButton(spec: KeyboardButtonSpec): (r: Result<Key, Error>) {
    match spec
    case TextSpec(text) =>
      var l :- Label(text);
      Ok(Key(l, None, Default))
    case RequestPhoneSpec(text) =>
      var l :- Label(text);
      Ok(Key(l, None, RequestPhone))
    case RequestGeoSpec(text) =>
      var l :- Label(text);
      Ok(Key(l, None, RequestGeoLocation))
    case RequestPollSpec(text, quiz) =>
      var l :- Label(text);
      Ok(Key(l, None, RequestPoll(if quiz then Some(true) else None)))
  }

  /** An iterator of results collected into a result: the first error ends it. */
  function Collect<T, U>(items: seq<T>, f: T -> Result<U, Error>): (r: Result<seq<U>, Error>) {
    if items == [] then Ok([])
    else
      var first :- f(items[0]);
      var rest :- Collect(items[1..], f);
      Ok([first] + rest)
  }

  function BuildRowsFrom<T, U>(
    index: nat, specs: seq<seq<T>>, build: T -> Result<U, Error>): (r: Result<seq<seq<U>>, Error>)
    decreases |specs|
  {
    if specs == [] then Ok([])
    else if specs[0] == [] then Err(RowHasNoButtons(index))
    else
      var row :- Collect(specs[0], build);
      var rest :- BuildRowsFrom(index + 1, specs[1..], build);
      Ok([row] + rest)
  }

  function BuildRows<T, U>(specs: seq<seq<T>>, build: T -> Result<U, Error>): (r: Result<seq<seq<U>>, Error>) {
    if specs == [] then Err(NoRows) else BuildRowsFrom(0, specs, build)
  }

  /** `reply_markup_from_spec` */
  function Build(spec: MarkupSpec): (r: Result<ReplyMarkup, Error>) {
    match spec
    case InlineSpec(buttons) =>
      var rows :- BuildRows(buttons, InlineButton);
      Ok(Inline(rows))
    case KeyboardSpec(keys, fitSize, singleUse, selective) =>
      var rows :- BuildRows(keys, KeyboardButton);
      Ok(Keyboard(rows, fitSize, singleUse, selective, false, None))
    case ForceReplySpec(singleUse, selective) => Ok(ForceReply(singleUse, selective, None))
    case HideSpec(selective) => Ok(Hide(selective))
  }

  // ---------------------------------------------------------------- projecting

  /** The strings the documents use for the kinds of buttons and of markups, one constructor each. */
  datatype ButtonKind =
    | KUrl | KWebView | KCallback | KSwitchInline | KGame | KPay | KUrlAuth | KInputUrlAuth | KUserProfile
    | KInputUserProfile | KCopy | KDisabled | KText | KRequestPhone | KRequestGeo | KRequestPoll
    | KRequestPeer | KInputRequestPeer | KSimpleWebView

  datatype MarkupKind = KInline | KKeyboard | KForceReply | KHide

  datatype ButtonDto = ButtonDto(
    kind: ButtonKind, text: Text, url: Option<Text>, data: Option<Text>, requiresPassword: Option<bool>,
    fwdText: Option<Text>, buttonId: Option<int>, query: Option<Text>, samePeer: Option<bool>,
    peerTypes: Option<seq<PeerType>>, quiz: Option<bool>, userId: Option<int>, copyText: Option<Text>,
    maxQuantity: Option<int>, requestWriteAccess: Option<bool>)

  datatype MarkupDto = MarkupDto(
    kind: MarkupKind, rows: seq<seq<ButtonDto>>, fitSize: bool, singleUse: bool, selective: bool,
    persistent: bool, placeholder: Option<Text>)

  function BareButton(kind: ButtonKind, text: Text): (d: ButtonDto) {
    ButtonDto(kind, text, None, None, None, None, None, None, None, None, None, None, None, None, None)
  }

  function BareMarkup(kind: MarkupKind): (d: MarkupDto) {
    MarkupDto(kind, [], false, false, false, false, None)
  }

  /** `String::from_utf8(…).ok()` */
  function FromUtf8(data: seq<byte>): (t: Option<Text>) {
    if ValidUtf8(data) then Some(data) else None
  }

  function InlineButtonDto(button: Button): (d: ButtonDto) {
    var text := button.text;
    match button.of
    case Url(url) => BareButton(KUrl, text).(url := Some(url))
    case WebView(url) => BareButton(KWebView, text).(url := Some(url))
    case Callback(data, requiresPassword) =>
      BareButton(KCallback, text).(data := FromUtf8(data), requiresPassword := Some(requiresPassword))
    case SwitchInline(query, samePeer, peerTypes) =>
      BareButton(KSwitchInline, text).(query := Some(query), samePeer := Some(samePeer), peerTypes := peerTypes)
    case Game => BareButton(KGame, text)
    case Buy => BareButton(KPay, text)
    case UrlAuth(fwdText, url, buttonId) =>
      BareButton(KUrlAuth, text).(fwdText := fwdText, url := Some(url), buttonId := Some(buttonId))
    case InputUrlAuth(fwdText, url, access, _) =>
      BareButton(KInputUrlAuth, text).(fwdText := fwdText, url := Some(url), requestWriteAccess := Some(access))
    case UserProfile(userId) => BareButton(KUserProfile, text).(userId := Some(userId))
    case InputUserProfile(_) => BareButton(KInputUserProfile, text)
    case Copy(copyText) => BareButton(KCopy, text).(copyText := Some(copyText))
    case Disabled => BareButton(KDisabled, text)
  }

  function KeyboardButtonDto(key: Key): (d: ButtonDto) {
    var text := key.text;
    match key.of
    case Default => BareButton(KText, text)
    case RequestPhone => BareButton(KRequestPhone, text)
    case RequestGeoLocation => BareButton(KRequestGeo, text)
    case RequestPoll(quiz) => BareButton(KRequestPoll, text).(quiz := quiz)
    case RequestPeer(buttonId, _, maxQuantity) =>
      BareButton(KRequestPeer, text).(buttonId := Some(buttonId), maxQuantity := Some(maxQuantity))
    case InputRequestPeer(buttonId, _, maxQuantity) =>
      BareButton(KInputRequestPeer, text).(buttonId := Some(buttonId), maxQuantity := Some(maxQuantity))
    case SimpleWebView(url) => BareButton(KSimpleWebView, text).(url := Some(url))
  }

  function MapRow<T, U>(row: seq<T>, f: T -> U): (r: seq<U>)
    ensures |r| == |row| && forall j | 0 <= j < |row| :: r[j] == f(row[j])
  {
    if row == [] then [] else [f(row[0])] + MapRow(row[1..], f)
  }

  function MapRows<T, U>(rows: seq<seq<T>>, f: T -> U): (r: seq<seq<U>>)
    ensures |r| == |rows| && forall i | 0 <= i < |rows| :: r[i] == MapRow(rows[i], f)
  {
    if rows == [] then [] else [MapRow(rows[0], f)] + MapRows(rows[1..], f)
  }

  /** `reply_markup_dto` */
  function Project(m: ReplyMarkup): (d: MarkupDto) {
    match m
    case Inline(buttons) => BareMarkup(KInline).(rows := MapRows(buttons, InlineButtonDto))
    case Keyboard(keys, resize, singleUse, selective, persistent, placeholder) =>
      BareMarkup(KKeyboard).(rows := MapRows(keys, KeyboardButtonDto), fitSize := resize, singleUse := singleUse,
                             selective := selective, persistent := persistent, placeholder := placeholder)
    case ForceReply(singleUse, selective, placeholder) =>
      BareMarkup(KForceReply).(singleUse := singleUse, selective := selective, placeholder := placeholder)
    case Hide(selective) => BareMarkup(KHide).(selective := selective)
  }

  // ---------------------------------------------------------------- reading a document back

  /** A missing or null required field, or a kind the spec has no variant for, does not decode. */
  function ToInlineSpec(d: ButtonDto): (r: Result<InlineButtonSpec, Error>) {
    match d.kind
    case KUrl => if d.url.Some? then Ok(UrlSpec(d.text, d.url.value)) else Err(InvalidPayload)
    case KWebView => if d.url.Some? then Ok(WebViewSpec(d.text, d.url.value)) else Err(InvalidPayload)
    case KCallback => if d.data.Some? then Ok(CallbackSpec(d.text, d.data.value)) else Err(InvalidPayload)
    case KSwitchInline =>
      if d.query.Some? then Ok(SwitchInlineSpec(d.text, d.query.value, d.samePeer)) else Err(InvalidPayload)
    case _ => Err(InvalidPayload)
  }

  function ToKeyboardSpec(d: ButtonDto): (r: Result<KeyboardButtonSpec, Error>) {
    match d.kind
    case KText => Ok(TextSpec(d.text))
    case KRequestPhone => Ok(RequestPhoneSpec(d.text))
    case KRequestGeo => Ok(RequestGeoSpec(d.text))
    case KRequestPoll => Ok(RequestPollSpec(d.text, d.quiz == Some(true)))
    case _ => Err(InvalidPayload)
  }

  function CollectRows<T, U>(rows: seq<seq<T>>, f: T -> Result<U, Error>): (r: Result<seq<seq<U>>, Error>) {
    if rows == [] then Ok([])
    else
      var row :- Collect(rows[0], f);
      var rest :- CollectRows(rows[1..], f);
      Ok([row] + rest)
  }

  /** The document of a markup taken as the payload of a send. */
  function ToSpec(d: MarkupDto): (r: Result<MarkupSpec, Error>) {
    match d.kind
    case KInline =>
      var rows :- CollectRows(d.rows, ToInlineSpec);
      Ok(InlineSpec(rows))
    case KKeyboard =>
      var rows :- CollectRows(d.rows, ToKeyboardSpec);
      Ok(KeyboardSpec(rows, d.fitSize, d.singleUse, d.selective))
    case KForceReply => Ok(ForceReplySpec(d.singleUse, d.selective))
    case KHide => Ok(HideSpec(d.selective))
  }

  /** A markup read off one message and built again for another. */
  function Resend(m: ReplyMarkup): (r: Result<ReplyMarkup, Error>) {
    var spec :- ToSpec(Project(m));
    Build(spec)
  }

  // ---------------------------------------------------------------- matrices

  /** Two matrices of one shape, each entry of the second made from that of the first. */
  ghost predicate MadeFrom<T, U>(ts: seq<seq<T>>, us: seq<seq<U>>, f: T -> Result<U, Error>) {
    |us| == |ts| && forall i | 0 <= i < |ts| :: RowMadeFrom(ts[i], us[i], f)
  }

  ghost predicate RowMadeFrom<T, U>(ts: seq<T>, us: seq<U>, f: T -> Result<U, Error>) {
    |us| == |ts| && forall j | 0 <= j < |ts| :: f(ts[j]) == Ok(us[j])
  }

  predicate Filled<T>(rows: seq<seq<T>>) {
    rows != [] && forall i | 0 <= i < |rows| :: rows[i] != []
  }

  lemma {:induction false} CollectOkIff<T, U>(ts: seq<T>, us: seq<U>, f: T -> Result<U, Error>)
    ensures Collect(ts, f) == Ok(us) <==> RowMadeFrom(ts, us, f)
  {
    if ts != [] {
      if us != [] {
        CollectOkIff(ts[1..], us[1..], f);
        RowMadeFromCons(ts, us, f);
        assert us == [us[0]] + us[1..];
      }
      var rest := Collect(ts[1..], f);
      if Collect(ts, f) == Ok(us) {
        assert us[1..] == rest.value;
      }
    }
  }

  lemma RowMadeFromCons<T, U>(ts: seq<T>, us: seq<U>, f: T -> Result<U, Error>)
    requires ts != [] && us != []
    ensures RowMadeFrom(ts, us, f) <==> f(ts[0]) == Ok(us[0]) && RowMadeFrom(ts[1..], us[1..], f)
  {
    if f(ts[0]) == Ok(us[0]) && RowMadeFrom(ts[1..], us[1..], f) {
      forall j | 0 <= j < |ts|
        ensures f(ts[j]) == Ok(us[j])
      {
        assert j > 0 ==> ts[j] == ts[1..][j - 1] && us[j] == us[1..][j - 1];
      }
    }
  }

  lemma MadeFromCons<T, U>(ts: seq<seq<T>>, us: seq<seq<U>>, f: T -> Result<U, Error>)
    requires ts != [] && us != []
    ensures MadeFrom(ts, us, f) <==> RowMadeFrom(ts[0], us[0], f) && MadeFrom(ts[1..], us[1..], f)
  {
    if RowMadeFrom(ts[0], us[0], f) && MadeFrom(ts[1..], us[1..], f) {
      forall j | 0 <= j < |ts|
        ensures RowMadeFrom(ts[j], us[j], f)
      {
        assert j > 0 ==> ts[j] == ts[1..][j - 1] && us[j] == us[1..][j - 1];
      }
    }
  }

  lemma {:induction false} CollectRowsOkIff<T, U>(ts: seq<seq<T>>, us: seq<seq<U>>, f: T -> Result<U, Error>)
    ensures CollectRows(ts, f) == Ok(us) <==> MadeFrom(ts, us, f)
  {
    if ts != [] {
      var rest := CollectRows(ts[1..], f);
      if us != [] {
        CollectRowsOkIff(ts[1..], us[1..], f);
        CollectOkIff(ts[0], us[0], f);
        MadeFromCons(ts, us, f);
        assert us == [us[0]] + us[1..];
      }
      if CollectRows(ts, f) == Ok(us) {
        assert us[1..] == rest.value;
      }
    }
  }

  lemma {:induction false} BuildRowsFromOkIff<T, U>(
    index: nat, ts: seq<seq<T>>, us: seq<seq<U>>, f: T -> Result<U, Error>)
    ensures BuildRowsFrom(index, ts, f) == Ok(us) <==>
            MadeFrom(ts, us, f) && forall i | 0 <= i < |ts| :: ts[i] != []
    decreases |ts|
  {
    if ts != [] {
      var rest := BuildRowsFrom(index + 1, ts[1..], f);
      if us != [] {
        BuildRowsFromOkIff(index + 1, ts[1..], us[1..], f);
        CollectOkIff(ts[0], us[0], f);
        MadeFromCons(ts, us, f);
        assert us == [us[0]] + us[1..];
        assert forall i | 0 < i < |ts| :: ts[i] == ts[1..][i - 1];
      }
      if BuildRowsFrom(index, ts, f) == Ok(us) {
        assert us[1..] == rest.value;
      }
    }
  }

  /** Rows are built exactly when there is a row, none is empty and every button is built. */
  lemma BuildRowsOkIff<T, U>(ts: seq<seq<T>>, us: seq<seq<U>>, f: T -> Result<U, Error>)
    ensures BuildRows(ts, f) == Ok(us) <==> Filled(ts) && MadeFrom(ts, us, f)
  {
    BuildRowsFromOkIff(0, ts, us, f);
  }

  // ---------------------------------------------------------------- which specs are built

  /** The first entry of a row that `f` refuses, and with what. */
  ghost predicate FirstInRow<T, U>(row: seq<T>, f: T -> Result<U, Error>, e: Error) {
    exists j ::
      && 0 <= j < |row| && f(row[j]) == Err(e)
      && forall k | 0 <= k < j :: f(row[k]).Ok?
  }

  /** What is wrong with a row: nothing in it, or a button in it. */
  ghost predicate RowFault<T, U>(row: seq<T>, number: nat, f: T -> Result<U, Error>, e: Error) {
    if row == [] then e == RowHasNoButtons(number) else FirstInRow(row, f, e)
  }

  ghost predicate RowBuilds<T, U>(row: seq<T>, f: T -> Result<U, Error>) {
    row != [] && forall j | 0 <= j < |row| :: f(row[j]).Ok?
  }

  ghost predicate FaultAt<T, U>(rows: seq<seq<T>>, i: nat, index: nat, f: T -> Result<U, Error>, e: Error) {
    i < |rows| && RowFault(rows[i], index + i, f, e) && forall k | 0 <= k < i :: RowBuilds(rows[k], f)
  }

  /** The first fault of a matrix, rows from the top and each from the left, numbered from `index`. */
  ghost predicate FirstFault<T, U>(rows: seq<seq<T>>, index: nat, f: T -> Result<U, Error>, e: Error) {
    exists i :: FaultAt(rows, i, index, f, e)
  }

  lemma {:induction false} CollectErrIff<T, U>(ts: seq<T>, f: T -> Result<U, Error>, e: Error)
    ensures Collect(ts, f) == Err(e) <==> FirstInRow(ts, f, e)
    ensures Collect(ts, f).Ok? <==> forall j | 0 <= j < |ts| :: f(ts[j]).Ok?
  {
    if ts != [] {
      var rest := ts[1..];
      CollectErrIff(rest, f, e);
      assert forall j | 0 <= j < |rest| :: rest[j] == ts[j + 1];
      if f(ts[0]) == Err(e) {
        assert FirstInRow(ts, f, e);
      }
      if f(ts[0]).Ok? && FirstInRow(rest, f, e) {
        var j :| 0 <= j < |rest| && f(rest[j]) == Err(e) && forall k | 0 <= k < j :: f(rest[k]).Ok?;
        assert f(ts[j + 1]) == Err(e) && forall k | 0 <= k < j + 1 :: f(ts[k]).Ok?;
      }
      if FirstInRow(ts, f, e) && f(ts[0]).Ok? {
        var j :| 0 <= j < |ts| && f(ts[j]) == Err(e) && forall k | 0 <= k < j :: f(ts[k]).Ok?;
        assert f(rest[j - 1]) == Err(e) && forall k | 0 <= k < j - 1 :: f(rest[k]).Ok?;
      }
    }
  }

  lemma FirstFaultCons<T, U>(rows: seq<seq<T>>, index: nat, f: T -> Result<U, Error>, e: Error)
    requires rows != []
    ensures FirstFault(rows, index, f, e) <==>
            RowFault(rows[0], index, f, e) || (RowBuilds(rows[0], f) && FirstFault(rows[1..], index + 1, f, e))
  {
    var rest := rows[1..];
    if RowFault(rows[0], index, f, e) {
      assert FaultAt(rows, 0, index, f, e);
    } else if RowBuilds(rows[0], f) && FirstFault(rest, index + 1, f, e) {
      var i: nat :| FaultAt(rest, i, index + 1, f, e);
      forall k | 0 <= k < i + 1
        ensures RowBuilds(rows[k], f)
      {
        assert k > 0 ==> rows[k] == rest[k - 1];
      }
      assert FaultAt(rows, i + 1, index, f, e);
    }
    if FirstFault(rows, index, f, e) && !RowFault(rows[0], index, f, e) {
      var i: nat :| FaultAt(rows, i, index, f, e);
      assert RowBuilds(rows[0], f);
      forall k | 0 <= k < i - 1
        ensures RowBuilds(rest[k], f)
      {
        assert rest[k] == rows[k + 1];
      }
      assert FaultAt(rest, i - 1, index + 1, f, e);
    }
  }

  lemma {:induction false} BuildRowsFromErrIff<T, U>(index: nat, rows: seq<seq<T>>, f: T -> Result<U, Error>, e: Error)
    ensures BuildRowsFrom(index, rows, f) == Err(e) <==> FirstFault(rows, index, f, e)
    decreases |rows|
  {
    if rows != [] {
      FirstFaultCons(rows, index, f, e);
      CollectErrIff(rows[0], f, e);
      BuildRowsFromErrIff(index + 1, rows[1..], f, e);
    }
  }

  /** What a button is refused for: the label is looked at first. */
  function InlineFault(s: InlineButtonSpec): (e: Option<Error>) {
    if |s.text| == 0 then Some(EmptyLabel)
    else if s.CallbackSpec? && |s.data| == 0 then Some(EmptyCallbackData)
    else if s.CallbackSpec? && |s.data| > 64 then Some(CallbackDataTooLong(|s.data|))
    else None
  }

  function KeyFault(s: KeyboardButtonSpec): (e: Option<Error>) {
    if |s.text| == 0 then Some(EmptyLabel) else None
  }

  lemma ButtonFaults(s: InlineButtonSpec, k: KeyboardButtonSpec)
    ensures if InlineFault(s).Some? then InlineButton(s) == Err(InlineFault(s).value) else InlineButton(s).Ok?
    ensures if KeyFault(k).Some? then KeyboardButton(k) == Err(KeyFault(k).value) else KeyboardButton(k).Ok?
  {
  }

  /**
   A spec fails to build with an error exactly when it is one of rows and either has none, or the error
   is its first fault from the top left: an empty row, or a button refused.
   */
  lemma BuildFailsIff(spec: MarkupSpec, e: Error)
    ensures Build(spec) == Err(e) <==>
            match spec
            case InlineSpec(rows) =>
              if rows == [] then e == NoRows else FirstFault(rows, 0, InlineButton, e)
            case KeyboardSpec(rows, _, _, _) =>
              if rows == [] then e == NoRows else FirstFault(rows, 0, KeyboardButton, e)
            case ForceReplySpec(_, _) => false
            case HideSpec(_) => false
  {
    match spec
    case InlineSpec(rows) => BuildRowsFromErrIff(0, rows, InlineButton, e);
    case KeyboardSpec(rows, _, _, _) => BuildRowsFromErrIff(0, rows, KeyboardButton, e);
    case _ =>
  }

  ghost predicate WellFormed(spec: MarkupSpec) {
    match spec
    case InlineSpec(rows) =>
      rows != [] && forall i | 0 <= i < |rows| ::
        rows[i] != [] && forall j | 0 <= j < |rows[i]| :: InlineFault(rows[i][j]).None?
    case KeyboardSpec(rows, _, _, _) =>
      rows != [] && forall i | 0 <= i < |rows| ::
        rows[i] != [] && forall j | 0 <= j < |rows[i]| :: KeyFault(rows[i][j]).None?
    case ForceReplySpec(_, _) => true
    case HideSpec(_) => true
  }

  lemma {:induction false} BuildRowsFromBuildsIff<T, U>(index: nat, rows: seq<seq<T>>, f: T -> Result<U, Error>)
    ensures BuildRowsFrom(index, rows, f).Ok? <==> forall i | 0 <= i < |rows| :: RowBuilds(rows[i], f)
    decreases |rows|
  {
    if rows != [] {
      CollectErrIff(rows[0], f, InvalidPayload);
      BuildRowsFromBuildsIff(index + 1, rows[1..], f);
      assert forall i | 0 < i < |rows| :: rows[i] == rows[1..][i - 1];
      assert forall i | 0 <= i < |rows| - 1 :: rows[1..][i] == rows[i + 1];
    }
  }

  /** A spec is built exactly when its rows, labels and callback data are within the bounds. */
  lemma BuildsIff(spec: MarkupSpec)
    ensures Build(spec).Ok? <==> WellFormed(spec)
  {
    match spec
    case InlineSpec(rows) =>
      BuildRowsFromBuildsIff(0, rows, InlineButton);
      forall i, j | 0 <= i < |rows| && 0 <= j < |rows[i]|
        ensures InlineButton(rows[i][j]).Ok? <==> InlineFault(rows[i][j]).None?
      {
        ButtonFaults(rows[i][j], TextSpec([]));
      }
    case KeyboardSpec(rows, _, _, _) =>
      BuildRowsFromBuildsIff(0, rows, KeyboardButton);
      forall i, j | 0 <= i < |rows| && 0 <= j < |rows[i]|
        ensures KeyboardButton(rows[i][j]).Ok? <==> KeyFault(rows[i][j]).None?
      {
        ButtonFaults(UrlSpec([], []), rows[i][j]);
      }
    case _ =>
  }

  // ---------------------------------------------------------------- the round trip

  /** The spec with the default of an absent `samePeer` written out. */
  function Explicit(s: InlineButtonSpec): (t: InlineButtonSpec) {
    if s.SwitchInlineSpec? && s.samePeer.None? then s.(samePeer := Some(true)) else s
  }

  function Same<T>(s: T): (t: T) { s }

  function ExplicitSpec(spec: MarkupSpec): (t: MarkupSpec) {
    match spec
    case InlineSpec(rows) => InlineSpec(MapRows(rows, Explicit))
    case _ => spec
  }

  lemma {:induction false} MapRowMadeFrom<T, U, D>(
    ts: seq<T>, us: seq<U>, f: T -> Result<U, Error>, p: U -> D, g: D -> Result<T, Error>, e: T -> T)
    requires RowMadeFrom(ts, us, f)
    requires forall t, u :: f(t) == Ok(u) ==> g(p(u)) == Ok(e(t)) && f(e(t)) == Ok(u)
    ensures RowMadeFrom(MapRow(us, p), MapRow(ts, e), g) && RowMadeFrom(MapRow(ts, e), us, f)
  {
  }

  /** When each button survives projecting and reading back, a matrix of them does, shape and all. */
  lemma MapRowsMadeFrom<T, U, D>(
    ts: seq<seq<T>>, us: seq<seq<U>>, f: T -> Result<U, Error>, p: U -> D, g: D -> Result<T, Error>, e: T -> T)
    requires MadeFrom(ts, us, f)
    requires forall t, u :: f(t) == Ok(u) ==> g(p(u)) == Ok(e(t)) && f(e(t)) == Ok(u)
    ensures MadeFrom(MapRows(us, p), MapRows(ts, e), g) && MadeFrom(MapRows(ts, e), us, f)
  {
    forall i | 0 <= i < |ts|
      ensures RowMadeFrom(MapRow(us[i], p), MapRow(ts[i], e), g) && RowMadeFrom(MapRow(ts[i], e), us[i], f)
    {
      MapRowMadeFrom(ts[i], us[i], f, p, g, e);
    }
  }

  lemma InlineButtonRoundTrip(s: InlineButtonSpec, b: Button)
    requires InlineButton(s) == Ok(b)
    ensures ToInlineSpec(InlineButtonDto(b)) == Ok(Explicit(s)) && InlineButton(Explicit(s)) == Ok(b)
  {
  }

  lemma KeyRoundTrip(s: KeyboardButtonSpec, k: Key)
    requires KeyboardButton(s) == Ok(k)
    ensures ToKeyboardSpec(KeyboardButtonDto(k)) == Ok(Same(s)) && KeyboardButton(Same(s)) == Ok(k)
  {
  }

  /**
   Whatever is built from a spec projects to a document that reads back as that spec, its defaults
   written out, which builds the same markup again.
   */
  lemma BuildProjectsBack(spec: MarkupSpec, m: ReplyMarkup)
    requires Build(spec) == Ok(m)
    ensures ToSpec(Project(m)) == Ok(ExplicitSpec(spec)) && Resend(m) == Ok(m)
  {
    match spec
    case InlineSpec(rows) => InlineProjectsBack(rows, m.buttons);
    case KeyboardSpec(rows, _, _, _) => KeyboardProjectsBack(rows, m.keys);
    case _ =>
  }

  lemma InlineProjectsBack(rows: seq<seq<InlineButtonSpec>>, buttons: seq<seq<Button>>)
    requires BuildRows(rows, InlineButton) == Ok(buttons)
    ensures CollectRows(MapRows(buttons, InlineButtonDto), ToInlineSpec) == Ok(MapRows(rows, Explicit))
    ensures BuildRows(MapRows(rows, Explicit), InlineButton) == Ok(buttons)
  {
    BuildRowsOkIff(rows, buttons, InlineButton);
    forall s, b | InlineButton(s) == Ok(b)
      ensures ToInlineSpec(InlineButtonDto(b)) == Ok(Explicit(s)) && InlineButton(Explicit(s)) == Ok(b)
    {
      InlineButtonRoundTrip(s, b);
    }
    MapRowsMadeFrom(rows, buttons, InlineButton, InlineButtonDto, ToInlineSpec, Explicit);
    CollectRowsOkIff(MapRows(buttons, InlineButtonDto), MapRows(rows, Explicit), ToInlineSpec);
    BuildRowsOkIff(MapRows(rows, Explicit), buttons, InlineButton);
  }

  lemma KeyboardProjectsBack(rows: seq<seq<KeyboardButtonSpec>>, keys: seq<seq<Key>>)
    requires BuildRows(rows, KeyboardButton) == Ok(keys)
    ensures CollectRows(MapRows(keys, KeyboardButtonDto), ToKeyboardSpec) == Ok(rows)
  {
    BuildRowsOkIff(rows, keys, KeyboardButton);
    forall s, k | KeyboardButton(s) == Ok(k)
      ensures ToKeyboardSpec(KeyboardButtonDto(k)) == Ok(Same(s)) && KeyboardButton(Same(s)) == Ok(k)
    {
      KeyRoundTrip(s, k);
    }
    MapRowsMadeFrom(rows, keys, KeyboardButton, KeyboardButtonDto, ToKeyboardSpec, Same);
    MapRowsSame(rows);
    CollectRowsOkIff(MapRows(keys, KeyboardButtonDto), rows, ToKeyboardSpec);
  }

  lemma MapRowsSame<T>(rows: seq<seq<T>>)
    ensures MapRows(rows, Same) == rows
  {
    forall i | 0 <= i < |rows|
      ensures MapRows(rows, Same)[i] == rows[i]
    {
      assert MapRow(rows[i], Same) == rows[i];
    }
  }

  // ---------------------------------------------------------------- any received markup

  /** A received button that can be sent again: a kind a spec has, within a spec's bounds. */
  predicate InlineCarries(b: Button) {
    && |b.text| > 0
    && match b.of
       case Url(_) => true
       case WebView(_) => true
       case Callback(data, _) => ValidUtf8(data) && 0 < |data| <= 64
       case SwitchInline(_, _, _) => true
       case _ => false
  }

  predicate KeyCarries(k: Key) {
    |k.text| > 0 && (k.of.Default? || k.of.RequestPhone? || k.of.RequestGeoLocation? || k.of.RequestPoll?)
  }

  /** What is left of such a button: what no spec can say is gone. */
  function InlineStripped(b: Button): (c: Button) {
    var plain := b.(style := None);
    match b.of
    case Callback(_, _) => plain.(of := b.of.(requiresPassword := false))
    case SwitchInline(_, _, _) => plain.(of := b.of.(peerTypes := None))
    case _ => plain
  }

  function KeyStripped(k: Key): (c: Key) {
    if k.of == RequestPoll(Some(false)) then Key(k.text, None, RequestPoll(None)) else k.(style := None)
  }

  function ResendInline(b: Button): (r: Result<Button, Error>) {
    var s :- ToInlineSpec(InlineButtonDto(b));
    InlineButton(s)
  }

  function ResendKey(k: Key): (r: Result<Key, Error>) {
    var s :- ToKeyboardSpec(KeyboardButtonDto(k));
    KeyboardButton(s)
  }

  lemma ResendInlineIs(b: Button)
    ensures InlineCarries(b) ==> ResendInline(b) == Ok(InlineStripped(b))
    ensures !InlineCarries(b) ==> ResendInline(b).Err?
  {
    match b.of
    case Callback(data, _) =>
      assert |data| == 0 <==> data == [];
    case _ =>
  }

  lemma ResendKeyIs(k: Key)
    ensures KeyCarries(k) ==> ResendKey(k) == Ok(KeyStripped(k))
    ensures !KeyCarries(k) ==> ResendKey(k).Err?
  {
    match k.of
    case RequestPoll(quiz) =>
      assert quiz.Some? && !quiz.value ==> k.of == RequestPoll(Some(false));
    case _ =>
  }

  /** Reading a matrix back and building it is doing so button by button. */
  lemma RowsResend<T, U(!new), D>(
    us: seq<seq<U>>, vs: seq<seq<U>>,
    p: U -> D, g: D -> Result<T, Error>, f: T -> Result<U, Error>, h: U -> Result<U, Error>)
    requires forall u :: h(u) == if g(p(u)).Err? then Err(g(p(u)).error) else f(g(p(u)).value)
    ensures var read := CollectRows(MapRows(us, p), g);
            read.Ok? && BuildRows(read.value, f) == Ok(vs) <==> Filled(us) && MadeFrom(us, vs, h)
  {
    var ds := MapRows(us, p);
    var read := CollectRows(ds, g);
    if read.Ok? && BuildRows(read.value, f) == Ok(vs) {
      var ts := read.value;
      CollectRowsOkIff(ds, ts, g);
      BuildRowsOkIff(ts, vs, f);
      forall i | 0 <= i < |us|
        ensures RowMadeFrom(us[i], vs[i], h) && us[i] != []
      {
        RowResends(us[i], ts[i], vs[i], p, g, f, h);
      }
    }
    if Filled(us) && MadeFrom(us, vs, h) {
      var ts := seq(|us|, i requires 0 <= i < |us| => Specs(us[i], vs[i], p, g, f, h));
      forall i | 0 <= i < |us|
        ensures RowMadeFrom(ds[i], ts[i], g) && RowMadeFrom(ts[i], vs[i], f) && ts[i] != []
      {
      }
      CollectRowsOkIff(ds, ts, g);
      BuildRowsOkIff(ts, vs, f);
    }
  }

  lemma RowResends<T, U, D>(
    us: seq<U>, ts: seq<T>, vs: seq<U>,
    p: U -> D, g: D -> Result<T, Error>, f: T -> Result<U, Error>, h: U -> Result<U, Error>)
    requires forall u :: h(u) == if g(p(u)).Err? then Err(g(p(u)).error) else f(g(p(u)).value)
    requires RowMadeFrom(MapRow(us, p), ts, g) && RowMadeFrom(ts, vs, f)
    ensures RowMadeFrom(us, vs, h)
  {
    forall j | 0 <= j < |us|
      ensures h(us[j]) == Ok(vs[j])
    {
      assert g(MapRow(us, p)[j]) == Ok(ts[j]);
    }
  }

  /** The specs between a row and what it is resent as. */
  ghost function Specs<T, U(!new), D>(
    us: seq<U>, vs: seq<U>,
    p: U -> D, g: D -> Result<T, Error>, f: T -> Result<U, Error>, h: U -> Result<U, Error>): (ts: seq<T>)
    requires forall u :: h(u) == if g(p(u)).Err? then Err(g(p(u)).error) else f(g(p(u)).value)
    requires RowMadeFrom(us, vs, h)
    ensures RowMadeFrom(MapRow(us, p), ts, g) && RowMadeFrom(ts, vs, f)
  {
    seq(|us|, j requires 0 <= j < |us| => g(p(us[j])).value)
  }

  ghost predicate AllCarry<U>(rows: seq<seq<U>>, ok: U -> bool) {
    Filled(rows) && forall i | 0 <= i < |rows| :: forall u | u in rows[i] :: ok(u)
  }

  /** A received markup that can be sent again, */
  ghost predicate Carries(m: ReplyMarkup) {
    match m
    case Inline(buttons) => AllCarry(buttons, InlineCarries)
    case Keyboard(keys, _, _, _, _, _) => AllCarry(keys, KeyCarries)
    case ForceReply(_, _, _) => true
    case Hide(_) => true
  }

  /** and what is left of it. */
  function Stripped(m: ReplyMarkup): (n: ReplyMarkup) {
    match m
    case Inline(buttons) => Inline(MapRows(buttons, InlineStripped))
    case Keyboard(keys, _, _, _, _, _) =>
      m.(keys := MapRows(keys, KeyStripped), persistent := false, placeholder := None)
    case ForceReply(_, _, _) => m.(placeholder := None)
    case Hide(_) => m
  }

  /** Each entry accepted and mapped, as one matrix. */
  lemma MadeFromMap<U>(us: seq<seq<U>>, vs: seq<seq<U>>, h: U -> Result<U, Error>, ok: U -> bool, strip: U -> U)
    requires forall u :: (ok(u) ==> h(u) == Ok(strip(u))) && (!ok(u) ==> h(u).Err?)
    ensures MadeFrom(us, vs, h) <==>
            (forall i | 0 <= i < |us| :: forall u | u in us[i] :: ok(u)) && vs == MapRows(us, strip)
  {
    if MadeFrom(us, vs, h) {
      forall i | 0 <= i < |us|
        ensures vs[i] == MapRow(us[i], strip) && forall u | u in us[i] :: ok(u)
      {
        assert RowMadeFrom(us[i], vs[i], h);
        forall j | 0 <= j < |us[i]|
          ensures ok(us[i][j]) && vs[i][j] == strip(us[i][j])
        {
          assert h(us[i][j]) == Ok(vs[i][j]);
        }
      }
    }
    if (forall i | 0 <= i < |us| :: forall u | u in us[i] :: ok(u)) && vs == MapRows(us, strip) {
      forall i | 0 <= i < |us|
        ensures RowMadeFrom(us[i], vs[i], h)
      {
        assert vs[i] == MapRow(us[i], strip);
        forall j | 0 <= j < |us[i]|
          ensures h(us[i][j]) == Ok(vs[i][j])
        {
          assert us[i][j] in us[i];
        }
      }
    }
  }

  lemma ResendButtonsIff(buttons: seq<seq<Button>>, rows: seq<seq<Button>>)
    ensures var read := CollectRows(MapRows(buttons, InlineButtonDto), ToInlineSpec);
            read.Ok? && BuildRows(read.value, InlineButton) == Ok(rows) <==>
            AllCarry(buttons, InlineCarries) && rows == MapRows(buttons, InlineStripped)
  {
    forall b
      ensures InlineCarries(b) ==> ResendInline(b) == Ok(InlineStripped(b))
      ensures !InlineCarries(b) ==> ResendInline(b).Err?
    {
      ResendInlineIs(b);
    }
    RowsResend(buttons, rows, InlineButtonDto, ToInlineSpec, InlineButton, ResendInline);
    MadeFromMap(buttons, rows, ResendInline, InlineCarries, InlineStripped);
  }

  lemma ResendKeysIff(keys: seq<seq<Key>>, rows: seq<seq<Key>>)
    ensures var read := CollectRows(MapRows(keys, KeyboardButtonDto), ToKeyboardSpec);
            read.Ok? && BuildRows(read.value, KeyboardButton) == Ok(rows) <==>
            AllCarry(keys, KeyCarries) && rows == MapRows(keys, KeyStripped)
  {
    forall k
      ensures (KeyCarries(k) ==> ResendKey(k) == Ok(KeyStripped(k))) && (!KeyCarries(k) ==> ResendKey(k).Err?)
    {
      ResendKeyIs(k);
    }
    RowsResend(keys, rows, KeyboardButtonDto, ToKeyboardSpec, KeyboardButton, ResendKey);
    MadeFromMap(keys, rows, ResendKey, KeyCarries, KeyStripped);
  }

  /**
   For every markup a message may carry: it can be projected, read back and built exactly when its
   buttons are of kinds and within bounds a spec has, and the result is then the markup with style,
   persistence, placeholder, password flag, peer types and an explicit `quiz: false` dropped.
   */
  lemma ResendIff(m: ReplyMarkup, n: ReplyMarkup)
    ensures Resend(m) == Ok(n) <==> Carries(m) && n == Stripped(m)
  {
    match m
    case Inline(buttons) => ResendButtonsIff(buttons, if n.Inline? then n.buttons else []);
    case Keyboard(keys, _, _, _, _, _) => ResendKeyboardIff(m, n);
    case ForceReply(_, _, _) =>
    case Hide(_) =>
  }

  lemma ResendKeyboardIff(m: ReplyMarkup, n: ReplyMarkup)
    requires m.Keyboard?
    ensures Resend(m) == Ok(n) <==> Carries(m) && n == Stripped(m)
  {
    ResendKeysIff(m.keys, if n.Keyboard? then n.keys else []);
    var read := CollectRows(MapRows(m.keys, KeyboardButtonDto), ToKeyboardSpec);
    assert read.Ok? ==> ToSpec(Project(m)) == Ok(KeyboardSpec(read.value, m.resize, m.singleUse, m.selective));
  }

  /** Sending a received markup again gives the same markup exactly when some spec builds it. */
  lemma ResentUnchangedIff(m: ReplyMarkup)
    ensures Resend(m) == Ok(m) <==> exists spec :: Build(spec) == Ok(m)
  {
    if Resend(m) == Ok(m) {
      assert Build(ToSpec(Project(m)).value) == Ok(m);
    }
    if exists spec :: Build(spec) == Ok(m) {
      var spec :| Build(spec) == Ok(m);
      BuildProjectsBack(spec, m);
    }
  }

  /** A poll key that says `quiz: false` is such a markup: no spec builds it, and it comes back without. */
  lemma ExplicitPollIsNotResentUnchanged()
    ensures var m := Keyboard([[Key([0x50], None, RequestPoll(Some(false)))]], false, false, false, false, None);
            && Resend(m) == Ok(m.(keys := [[Key([0x50], None, RequestPoll(None))]]))
            && forall spec :: Build(spec) != Ok(m)
  {
    var key := Key([0x50], None, RequestPoll(Some(false)));
    var m := Keyboard([[key]], false, false, false, false, None);
    assert ValidUtf8([0x50]);
    assert Carries(m);
    assert MapRow([key], KeyStripped) == [KeyStripped(key)];
    assert MapRows([[key]], KeyStripped) == [MapRow([key], KeyStripped)];
    ResendIff(m, m.(keys := [[KeyStripped(key)]]));
    ResendIff(m, m);
    ResentUnchangedIff(m);
  }
}
