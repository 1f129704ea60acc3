/**
 The login flow of `native/src/ops/auth.rs`: one mutex-guarded field that every handler replaces or
 overwrites, with the server called while the lock is released. First the handlers as methods on the
 object and their characterisation for calls made one after another, then every interleaving of
 concurrent calls and the linearity of the tokens.
 */
module Login {
  import opened Wrappers

  /** `AuthenticationState`; a token is named by the number the server's answer gave it. */
  datatype Auth = Idle | LoginCode(token: nat) | Password(token: nat)

  datatype Op = RequestCode | SignIn | CheckPassword | SignOut

  /** What the server may answer a request; `WrongCode` and `WantsPassword` are answers to a sign-in. */
  datatype Answer = Yes | WantsPassword | WrongCode | No

  datatype Outcome = CodeRequested | Authorized | PasswordRequired | InvalidCode | SignedOut | OutOfOrder | Failed

  // ---------------------------------------------------------------- one call at a time

  /** The field, and how many tokens the server has handed out. */
  datatype Session = Session(auth: Auth, tokens: nat)

  /** One handler run from start to end with nothing beside it. */
  function Handle(s: Session, op: Op, answer: Answer): (r: (Session, Outcome)) {
    match op
    case RequestCode =>
      if answer.Yes? then (Session(LoginCode(s.tokens), s.tokens + 1), CodeRequested) else (s, Failed)
    case SignIn =>
      if !s.auth.LoginCode? then (s.(auth := Idle), OutOfOrder)
      else (match answer
            case Yes => (s.(auth := Idle), Authorized)
            case WantsPassword => (Session(Password(s.tokens), s.tokens + 1), PasswordRequired)
            case WrongCode => (s, InvalidCode)
            case No => (s.(auth := Idle), Failed))
    case CheckPassword =>
      if !s.auth.Password? then (s.(auth := Idle), OutOfOrder)
      else (s.(auth := Idle), if answer.Yes? then Authorized else Failed)
    case SignOut =>
      if answer.Yes? then (s.(auth := Idle), SignedOut) else (s, Failed)
  }

  /** The object the handlers share. The server's answer to the call is a parameter of each. */
  class NativeClient {
    var authentication: Auth
    ghost var tokens: nat

    ghost function View(): (s: Session)
      reads this
    {
      Session(authentication, tokens)
    }

    constructor ()
      ensures View() == Session(Idle, 0)
    {
      authentication, tokens := Idle, 0;
    }

    /** `token` is the one the server hands out when it answers yes. */
    method RequestLoginCode(answer: Answer, token: nat) returns (o: Outcome)
      requires token == tokens
      modifies this
      ensures (View(), o) == Handle(old(View()), RequestCode, answer)
    {
      if !answer.Yes? {
        return Failed;
      }
      tokens := tokens + 1;
      authentication := LoginCode(token);
      return CodeRequested;
    }

    method SignIn(answer: Answer, passwordToken: nat) returns (o: Outcome)
      requires passwordToken == tokens
      modifies this
      ensures (View(), o) == Handle(old(View()), Op.SignIn, answer)
    {
      var previous := authentication;
      authentication := Idle;
      match previous
      case LoginCode(token) =>
        match answer {
          case Yes => return Authorized;
          case WantsPassword =>
            tokens := tokens + 1;
            authentication := Password(passwordToken);
            return PasswordRequired;
          case WrongCode =>
            authentication := LoginCode(token);
            return InvalidCode;
          case No => return Failed;
        }
      case _ => return OutOfOrder;
    }

    method CheckPassword(answer: Answer) returns (o: Outcome)
      modifies this
      ensures (View(), o) == Handle(old(View()), Op.CheckPassword, answer)
    {
      var previous := authentication;
      authentication := Idle;
      match previous
      case Password(token) => return if answer.Yes? then Authorized else Failed;
      case _ => return OutOfOrder;
    }

    method SignOut(answer: Answer) returns (o: Outcome)
      modifies this
      ensures (View(), o) == Handle(old(View()), Op.SignOut, answer)
    {
      if !answer.Yes? {
        return Failed;
      }
      authentication := Idle;
      return SignedOut;
    }
  }

  /** The session after a list of calls made one after another, and what each returned. */
  function Replay(calls: seq<(Op, Answer)>): (r: (Session, seq<Outcome>))
    ensures |r.1| == |calls|
  {
    if calls == [] then (Session(Idle, 0), [])
    else
      var last := calls[|calls| - 1];
      var (s, outcomes) := Replay(calls[..|calls| - 1]);
      var (t, o) := Handle(s, last.0, last.1);
      (t, outcomes + [o])
  }

  /** A call that leaves the field alone: a request for a code or a sign-out the server refused. */
  predicate Neutral(op: Op, o: Outcome) {
    (op.RequestCode? || op.SignOut?) && o == Failed
  }

  /** The last call that was not neutral returned one of these. */
  ghost predicate LastChange(calls: seq<(Op, Answer)>, outcomes: seq<Outcome>, wanted: set<Outcome>)
    requires |calls| == |outcomes|
  {
    exists i ::
      && 0 <= i < |calls| && outcomes[i] in wanted
      && forall j | i < j < |calls| :: Neutral(calls[j].0, outcomes[j])
  }

  lemma LastChangeSnoc(
    calls: seq<(Op, Answer)>, outcomes: seq<Outcome>, call: (Op, Answer), o: Outcome, wanted: set<Outcome>)
    requires |calls| == |outcomes|
    requires Failed !in wanted
    ensures LastChange(calls + [call], outcomes + [o], wanted) <==>
            o in wanted || (Neutral(call.0, o) && LastChange(calls, outcomes, wanted))
  {
    var n := |calls|;
    var cs, os := calls + [call], outcomes + [o];
    if o in wanted {
      assert os[n] in wanted;
    }
    if Neutral(call.0, o) && LastChange(calls, outcomes, wanted) {
      var i :| 0 <= i < n && outcomes[i] in wanted && forall j | i < j < n :: Neutral(calls[j].0, outcomes[j]);
      assert os[i] in wanted && forall j | i < j < |cs| :: Neutral(cs[j].0, os[j]);
    }
    if LastChange(cs, os, wanted) && o !in wanted {
      var i :| 0 <= i < |cs| && os[i] in wanted && forall j | i < j < |cs| :: Neutral(cs[j].0, os[j]);
      assert i < n && Neutral(cs[n].0, os[n]);
      assert outcomes[i] in wanted && forall j | i < j < n :: Neutral(calls[j].0, outcomes[j]) by {
        forall j | i < j < n
          ensures Neutral(calls[j].0, outcomes[j])
        {
          assert Neutral(cs[j].0, os[j]);
        }
      }
    }
  }

  /**
   After calls made one after another, a login token is held exactly when the last call that changed
   anything was a successful code request or a sign-in answered with a wrong code, and a password token
   exactly when it was a sign-in answered with a password request.
   */
  lemma {:induction false} StateFollowsLastChange(calls: seq<(Op, Answer)>)
    ensures var (s, outcomes) := Replay(calls);
            && (s.auth.LoginCode? <==> LastChange(calls, outcomes, {CodeRequested, InvalidCode}))
            && (s.auth.Password? <==> LastChange(calls, outcomes, {PasswordRequired}))
  {
    if calls != [] {
      var before, last := calls[..|calls| - 1], calls[|calls| - 1];
      StateFollowsLastChange(before);
      var (s, outcomes) := Replay(before);
      var o := Handle(s, last.0, last.1).1;
      assert calls == before + [last];
      LastChangeSnoc(before, outcomes, last, o, {CodeRequested, InvalidCode});
      LastChangeSnoc(before, outcomes, last, o, {PasswordRequired});
    }
  }

  /** What the last change must have returned for the call to reach the server. */
  function Wanted(op: Op): (w: set<Outcome>) {
    if op.SignIn? then {CodeRequested, InvalidCode} else {PasswordRequired}
  }

  /** Which calls reach the server, by the history alone; an out-of-order call leaves the flow idle. */
  lemma ReachesTheServerIff(calls: seq<(Op, Answer)>, op: Op, answer: Answer)
    requires op.SignIn? || op.CheckPassword?
    ensures var (s, outcomes) := Replay(calls + [(op, answer)]);
            && (outcomes[|calls|] != OutOfOrder <==> LastChange(calls, Replay(calls).1, Wanted(op)))
            && (outcomes[|calls|] == OutOfOrder ==> s.auth == Idle)
  {
    StateFollowsLastChange(calls);
    ReplaySnoc(calls, (op, answer));
    OutOfOrderIff(Replay(calls).0, op, answer);
  }

  /**
   What a call returns, by the history and the server's answer: it authorises exactly when it reached the
   server and the server said yes.
   */
  lemma OutcomeIff(calls: seq<(Op, Answer)>, op: Op, answer: Answer)
    ensures var reaches := op.RequestCode? || op.SignOut? || LastChange(calls, Replay(calls).1, Wanted(op));
            var o := Replay(calls + [(op, answer)]).1[|calls|];
            && (o == CodeRequested <==> op.RequestCode? && answer.Yes?)
            && (o == SignedOut <==> op.SignOut? && answer.Yes?)
            && (o == Authorized <==> (op.SignIn? || op.CheckPassword?) && reaches && answer.Yes?)
            && (o == PasswordRequired <==> op.SignIn? && reaches && answer.WantsPassword?)
            && (o == InvalidCode <==> op.SignIn? && reaches && answer.WrongCode?)
            && (o == OutOfOrder <==> !reaches)
  {
    StateFollowsLastChange(calls);
    ReplaySnoc(calls, (op, answer));
  }

  lemma OutOfOrderIff(s: Session, op: Op, answer: Answer)
    requires op.SignIn? || op.CheckPassword?
    ensures var (t, o) := Handle(s, op, answer);
            && (o == OutOfOrder <==> if op.SignIn? then !s.auth.LoginCode? else !s.auth.Password?)
            && (o == OutOfOrder ==> t.auth == Idle)
  {
  }

  lemma ReplaySnoc(calls: seq<(Op, Answer)>, last: (Op, Answer))
    ensures var (s, past) := Replay(calls);
            var (t, o) := Handle(s, last.0, last.1);
            Replay(calls + [last]) == (t, past + [o])
  {
    assert (calls + [last])[..|calls|] == calls;
  }

  // ---------------------------------------------------------------- concurrent calls

  datatype Kind = LoginToken | PasswordToken

  /** Where a call stands; a phase with a token owns it. */
  datatype Phase =
    | RequestSent
    | RequestStoring(token: nat)
    | SignInStart
    | SignInTaken(token: nat)
    | SignInSent(token: nat)
    | SignInStoring(kind: Kind, token: nat)
    | CheckStart
    | CheckTaken(token: nat)
    | CheckSent(token: nat)
    | SignOutSent
    | SignOutStoring
    | Done(outcome: Outcome)

  /** What the server sees and says about a token. */
  datatype Event = Submitted(token: nat) | Answered(token: nat, answer: Answer)

  /** The shared field, the calls in flight, the kind of every token handed out, and the server's log. */
  datatype State = State(auth: Auth, calls: seq<Phase>, kinds: seq<Kind>, log: seq<Event>)

  const INIT := State(Idle, [], [], [])

  datatype Action = Invoke(op: Op) | Advance(call: nat, answer: Answer)

  function Entry(op: Op): (p: Phase) {
    match op
    case RequestCode => RequestSent
    case SignIn => SignInStart
    case CheckPassword => CheckStart
    case SignOut => SignOutSent
  }

  predicate Enabled(s: State, a: Action) {
    a.Advance? ==> a.call < |s.calls| && !s.calls[a.call].Done?
  }

  /** What the field is when it holds a token. */
  function Stored(kind: Kind, token: nat): (a: Auth) {
    match kind
    case LoginToken => LoginCode(token)
    case PasswordToken => Password(token)
  }

  function Goto(s: State, c: nat, p: Phase): (t: State)
    requires c < |s.calls|
  {
    s.(calls := s.calls[c := p])
  }

  /** One lock held for a replace or a store, one request sent, or one answer received. */
  function Next(s: State, a: Action): (t: State)
    requires Enabled(s, a)
  {
    match a
    case Invoke(op) => s.(calls := s.calls + [Entry(op)])
    case Advance(c, answer) =>
      var unused := |s.kinds|;
      match s.calls[c]
      case RequestSent =>
        if answer.Yes? then Goto(s.(kinds := s.kinds + [LoginToken]), c, RequestStoring(unused))
        else Goto(s, c, Done(Failed))
      case RequestStoring(token) => Goto(s.(auth := LoginCode(token)), c, Done(CodeRequested))
      case SignInStart =>
        Goto(s.(auth := Idle), c, if s.auth.LoginCode? then SignInTaken(s.auth.token) else Done(OutOfOrder))
      case SignInTaken(token) => Goto(s.(log := s.log + [Submitted(token)]), c, SignInSent(token))
      case SignInSent(token) =>
        var told := s.(log := s.log + [Answered(token, answer)]);
        (match answer
         case Yes => Goto(told, c, Done(Authorized))
         case WantsPassword =>
           Goto(told.(kinds := s.kinds + [PasswordToken]), c, SignInStoring(PasswordToken, unused))
         case WrongCode => Goto(told, c, SignInStoring(LoginToken, token))
         case No => Goto(told, c, Done(Failed)))
      case SignInStoring(kind, token) =>
        Goto(s.(auth := Stored(kind, token)), c, Done(if kind.PasswordToken? then PasswordRequired else InvalidCode))
      case CheckStart =>
        Goto(s.(auth := Idle), c, if s.auth.Password? then CheckTaken(s.auth.token) else Done(OutOfOrder))
      case CheckTaken(token) => Goto(s.(log := s.log + [Submitted(token)]), c, CheckSent(token))
      case CheckSent(token) =>
        Goto(s.(log := s.log + [Answered(token, answer)]), c, Done(if answer.Yes? then Authorized else Failed))
      case SignOutSent => Goto(s, c, if answer.Yes? then SignOutStoring else Done(Failed))
      case SignOutStoring => Goto(s.(auth := Idle), c, Done(SignedOut))
  }

  predicate Runs(s: State, actions: seq<Action>)
    decreases |actions|
  {
    actions == [] || (Enabled(s, actions[0]) && Runs(Next(s, actions[0]), actions[1..]))
  }

  function Run(s: State, actions: seq<Action>): (t: State)
    requires Runs(s, actions)
    decreases |actions|
  {
    if actions == [] then s else Run(Next(s, actions[0]), actions[1..])
  }

  // ---------------------------------------------------------------- the tokens' whereabouts

  /** A place a token can be: nowhere, waiting to be used, or submitted and not answered. */
  datatype Held = Nothing | Waiting(kind: Kind, token: nat) | Submitting(kind: Kind, token: nat)

  function HeldByAuth(a: Auth): (h: Held) {
    match a
    case Idle => Nothing
    case LoginCode(t) => Waiting(LoginToken, t)
    case Password(t) => Waiting(PasswordToken, t)
  }

  function HeldByCall(p: Phase): (h: Held) {
    match p
    case RequestStoring(t) => Waiting(LoginToken, t)
    case SignInTaken(t) => Waiting(LoginToken, t)
    case SignInSent(t) => Submitting(LoginToken, t)
    case SignInStoring(kind, t) => Waiting(kind, t)
    case CheckTaken(t) => Waiting(PasswordToken, t)
    case CheckSent(t) => Submitting(PasswordToken, t)
    case _ => Nothing
  }

  /** The last thing the server's log says about a token. */
  function LastEvent(log: seq<Event>, token: nat): (e: Option<Event>) {
    if log == [] then None
    else if log[|log| - 1].token == token then Some(log[|log| - 1])
    else LastEvent(log[..|log| - 1], token)
  }

  /** The token may be submitted: it never was, or it is a login token last answered with a wrong code. */
  ghost predicate MaySubmit(log: seq<Event>, kind: Kind, token: nat) {
    LastEvent(log, token) == None || (kind == LoginToken && LastEvent(log, token) == Some(Answered(token, WrongCode)))
  }

  ghost predicate HeldOk(s: State, h: Held) {
    match h
    case Nothing => true
    case Waiting(kind, t) => t < |s.kinds| && s.kinds[t] == kind && MaySubmit(s.log, kind, t)
    case Submitting(kind, t) => t < |s.kinds| && s.kinds[t] == kind && LastEvent(s.log, t) == Some(Submitted(t))
  }

  ghost predicate Apart(g: Held, h: Held) {
    g.Nothing? || h.Nothing? || g.token != h.token
  }

  /** Every token is in at most one place, and was only ever submitted when it could be. */
  ghost predicate Inv(s: State) {
    && HeldOk(s, HeldByAuth(s.auth))
    && (forall c | 0 <= c < |s.calls| :: HeldOk(s, HeldByCall(s.calls[c])))
    && (forall c | 0 <= c < |s.calls| :: Apart(HeldByCall(s.calls[c]), HeldByAuth(s.auth)))
    && (forall c, d | 0 <= c < d < |s.calls| :: Apart(HeldByCall(s.calls[c]), HeldByCall(s.calls[d])))
    && (forall i | 0 <= i < |s.log| :: s.log[i].token < |s.kinds|)
    && (forall i | 0 <= i < |s.log| && s.log[i].Submitted? ::
          MaySubmit(s.log[..i], s.kinds[s.log[i].token], s.log[i].token))
  }

  lemma {:induction false} LastEventIsKnown(log: seq<Event>, kinds: nat, token: nat)
    requires forall i | 0 <= i < |log| :: log[i].token < kinds
    requires token >= kinds
    ensures LastEvent(log, token) == None
  {
    if log != [] {
      LastEventIsKnown(log[..|log| - 1], kinds, token);
    }
  }

  lemma LastEventSnoc(log: seq<Event>, e: Event, token: nat)
    ensures LastEvent(log + [e], token) == if e.token == token then Some(e) else LastEvent(log, token)
  {
    assert (log + [e])[..|log|] == log;
  }

  /** A held token other than the one an event names is held as before. */
  lemma HeldKept(s: State, t: State, h: Held)
    requires HeldOk(s, h) && s.kinds <= t.kinds
    requires t.log == s.log || (|t.log| == |s.log| + 1 && t.log == s.log + [t.log[|s.log|]])
    requires |t.log| > |s.log| && !h.Nothing? ==> t.log[|s.log|].token != h.token
    ensures HeldOk(t, h)
  {
    if |t.log| > |s.log| && !h.Nothing? {
      LastEventSnoc(s.log, t.log[|s.log|], h.token);
    }
  }

  /** The parts of a step: who holds what afterwards, and what was logged. */
  lemma Assemble(s: State, t: State, c: nat)
    requires Inv(s) && c < |s.calls| && |t.calls| == |s.calls| && t.calls == s.calls[c := t.calls[c]]
    requires s.kinds <= t.kinds
    requires t.log == s.log || (|t.log| == |s.log| + 1 && t.log == s.log + [t.log[|s.log|]])
    // Whatever the call and the field hold after the step, one of them held before, or it is new.
    requires HeldOk(t, HeldByAuth(t.auth)) && HeldOk(t, HeldByCall(t.calls[c]))
    requires Apart(HeldByCall(t.calls[c]), HeldByAuth(t.auth))
    requires FromHere(s, c, HeldByAuth(t.auth)) && FromHere(s, c, HeldByCall(t.calls[c]))
    requires |t.log| > |s.log| ==>
               && FromHere(s, c, Waiting(LoginToken, t.log[|s.log|].token))
               && t.log[|s.log|].token < |s.kinds|
               && (t.log[|s.log|].Submitted? ==>
                     MaySubmit(s.log, s.kinds[t.log[|s.log|].token], t.log[|s.log|].token))
    ensures Inv(t)
  {
    forall d | 0 <= d < |t.calls|
      ensures HeldOk(t, HeldByCall(t.calls[d]))
    {
      if d != c {
        FromHereIsApart(s, c, d, HeldByAuth(t.auth));
        if |t.log| > |s.log| {
          FromHereIsApart(s, c, d, Waiting(LoginToken, t.log[|s.log|].token));
        }
        HeldKept(s, t, HeldByCall(s.calls[d]));
      }
    }
    forall d | 0 <= d < |t.calls|
      ensures Apart(HeldByCall(t.calls[d]), HeldByAuth(t.auth))
      ensures d != c ==> Apart(HeldByCall(t.calls[d]), HeldByCall(t.calls[c]))
    {
      if d != c {
        FromHereIsApart(s, c, d, HeldByAuth(t.auth));
        FromHereIsApart(s, c, d, HeldByCall(t.calls[c]));
      }
    }
    LogKept(s, t);
  }

  lemma LogKept(s: State, t: State)
    requires Inv(s) && s.kinds <= t.kinds
    requires t.log == s.log || (|t.log| == |s.log| + 1 && t.log == s.log + [t.log[|s.log|]])
    requires |t.log| > |s.log| ==>
               && t.log[|s.log|].token < |s.kinds|
               && (t.log[|s.log|].Submitted? ==>
                     MaySubmit(s.log, s.kinds[t.log[|s.log|].token], t.log[|s.log|].token))
    ensures forall i | 0 <= i < |t.log| :: t.log[i].token < |t.kinds|
    ensures forall i | 0 <= i < |t.log| && t.log[i].Submitted? ::
              MaySubmit(t.log[..i], t.kinds[t.log[i].token], t.log[i].token)
  {
    forall i | 0 <= i < |t.log|
      ensures t.log[i].token < |t.kinds|
      ensures t.log[i].Submitted? ==> MaySubmit(t.log[..i], t.kinds[t.log[i].token], t.log[i].token)
    {
      if i < |s.log| {
        assert t.log[i] == s.log[i] && t.log[..i] == s.log[..i];
      } else {
        assert t.log[..i] == s.log;
      }
    }
  }

  /** The token was in the field or with call `c`, or has just been handed out. */
  ghost predicate FromHere(s: State, c: nat, h: Held)
    requires c < |s.calls|
  {
    h.Nothing? || h.token == |s.kinds|
    || (!HeldByAuth(s.auth).Nothing? && HeldByAuth(s.auth).token == h.token)
    || (!HeldByCall(s.calls[c]).Nothing? && HeldByCall(s.calls[c]).token == h.token)
  }

  lemma FromHereIsApart(s: State, c: nat, d: nat, h: Held)
    requires Inv(s) && c < |s.calls| && d < |s.calls| && c != d && FromHere(s, c, h)
    ensures Apart(HeldByCall(s.calls[d]), h)
  {
    assert HeldOk(s, HeldByCall(s.calls[d]));
    assert Apart(HeldByCall(s.calls[d]), HeldByAuth(s.auth));
    if c < d {
      assert Apart(HeldByCall(s.calls[c]), HeldByCall(s.calls[d]));
    } else {
      assert Apart(HeldByCall(s.calls[d]), HeldByCall(s.calls[c]));
    }
  }

  lemma StepKeepsInv(s: State, a: Action)
    requires Inv(s) && Enabled(s, a)
    ensures Inv(Next(s, a))
  {
    match a
    case Invoke(op) => InvokeKeepsInv(s, op);
    case Advance(c, answer) =>
      assert HeldOk(s, HeldByCall(s.calls[c]));
      assert Apart(HeldByCall(s.calls[c]), HeldByAuth(s.auth));
      StepFrame(s, c, answer);
      LastEventIsKnown(s.log, |s.kinds|, |s.kinds|);
      FieldHeld(s, c, answer);
      FieldApart(s, c, answer);
      if s.calls[c].SignInTaken? || s.calls[c].CheckTaken? {
        SubmittingHeld(s, c, answer);
      } else if s.calls[c].SignInSent? {
        AnsweredHeld(s, c, answer);
      } else {
        QuietHeld(s, c, answer);
      }
      StepSource(s, c, answer);
      Assemble(s, Next(s, a), c);
  }

  lemma InvokeKeepsInv(s: State, op: Op)
    requires Inv(s)
    ensures Inv(Next(s, Invoke(op)))
  {
    var t := Next(s, Invoke(op));
    forall c | 0 <= c < |t.calls|
      ensures HeldOk(t, HeldByCall(t.calls[c]))
      ensures Apart(HeldByCall(t.calls[c]), HeldByAuth(t.auth))
    {
      if c < |s.calls| {
        assert HeldOk(s, HeldByCall(s.calls[c]));
      }
    }
  }

  /** A step moves one call, adds at most one kind and at most one line of log. */
  lemma StepFrame(s: State, c: nat, answer: Answer)
    requires c < |s.calls| && !s.calls[c].Done?
    ensures var t := Next(s, Advance(c, answer));
            && |t.calls| == |s.calls| && t.calls == s.calls[c := t.calls[c]]
            && s.kinds <= t.kinds
            && (t.log == s.log || (|t.log| == |s.log| + 1 && t.log == s.log + [t.log[|s.log|]]))
  {
  }

  /** What the moving call holds after a step, and logs, comes from the field or from itself. */
  lemma StepSource(s: State, c: nat, answer: Answer)
    requires c < |s.calls| && !s.calls[c].Done?
    requires HeldOk(s, HeldByCall(s.calls[c]))
    ensures var t := Next(s, Advance(c, answer));
            && FromHere(s, c, HeldByAuth(t.auth)) && FromHere(s, c, HeldByCall(t.calls[c]))
            && (|t.log| > |s.log| ==>
                  var token := t.log[|s.log|].token;
                  && !HeldByCall(s.calls[c]).Nothing? && HeldByCall(s.calls[c]).token == token
                  && token < |s.kinds|
                  && (t.log[|s.log|].Submitted? ==> MaySubmit(s.log, s.kinds[token], token)))
  {
  }

  /** What the field holds is still held well after a step that logs something, */
  lemma FieldHeldLogged(s: State, c: nat, answer: Answer)
    requires c < |s.calls|
    requires s.calls[c].SignInTaken? || s.calls[c].CheckTaken? || s.calls[c].SignInSent? || s.calls[c].CheckSent?
    requires HeldOk(s, HeldByAuth(s.auth)) && Apart(HeldByCall(s.calls[c]), HeldByAuth(s.auth))
    ensures HeldOk(Next(s, Advance(c, answer)), HeldByAuth(s.auth))
  {
    var t := Next(s, Advance(c, answer));
    StepFrame(s, c, answer);
    assert t.log[|s.log|].token == s.calls[c].token;
    HeldKept(s, t, HeldByAuth(s.auth));
  }

  /** and after any step. */
  lemma FieldHeld(s: State, c: nat, answer: Answer)
    requires c < |s.calls| && !s.calls[c].Done?
    requires HeldOk(s, HeldByCall(s.calls[c])) && HeldOk(s, HeldByAuth(s.auth))
    requires Apart(HeldByCall(s.calls[c]), HeldByAuth(s.auth))
    ensures HeldOk(Next(s, Advance(c, answer)), HeldByAuth(Next(s, Advance(c, answer)).auth))
  {
    if s.calls[c].SignInTaken? || s.calls[c].CheckTaken? || s.calls[c].SignInSent? || s.calls[c].CheckSent? {
      FieldHeldLogged(s, c, answer);
    }
  }

  /** The field and the call hold nothing in common. */
  lemma FieldApart(s: State, c: nat, answer: Answer)
    requires c < |s.calls| && !s.calls[c].Done?
    requires HeldOk(s, HeldByCall(s.calls[c])) && HeldOk(s, HeldByAuth(s.auth))
    requires Apart(HeldByCall(s.calls[c]), HeldByAuth(s.auth))
    ensures var t := Next(s, Advance(c, answer));
            Apart(HeldByCall(t.calls[c]), HeldByAuth(t.auth))
  {
  }

  /** So is what a call holds when it submits its token, */
  lemma SubmittingHeld(s: State, c: nat, answer: Answer)
    requires c < |s.calls| && (s.calls[c].SignInTaken? || s.calls[c].CheckTaken?)
    requires HeldOk(s, HeldByCall(s.calls[c]))
    ensures var t := Next(s, Advance(c, answer));
            HeldOk(t, HeldByCall(t.calls[c]))
  {
    LastEventSnoc(s.log, Submitted(s.calls[c].token), s.calls[c].token);
  }

  /** when its sign-in is answered, */
  lemma AnsweredHeld(s: State, c: nat, answer: Answer)
    requires c < |s.calls| && s.calls[c].SignInSent?
    requires HeldOk(s, HeldByCall(s.calls[c]))
    requires LastEvent(s.log, |s.kinds|) == None
    ensures var t := Next(s, Advance(c, answer));
            HeldOk(t, HeldByCall(t.calls[c]))
  {
    var token := s.calls[c].token;
    var e := Answered(token, answer);
    var t := Next(s, Advance(c, answer));
    assert t.log == s.log + [e];
    if answer.WantsPassword? {
      LastEventSnoc(s.log, e, |s.kinds|);
      assert LastEvent(t.log, |s.kinds|) == None;
    } else if answer.WrongCode? {
      LastEventSnoc(s.log, e, token);
      assert LastEvent(t.log, token) == Some(e);
    }
  }

  /** and at any other step, none of which submits anything new. */
  lemma QuietHeld(s: State, c: nat, answer: Answer)
    requires c < |s.calls| && !s.calls[c].Done?
    requires !s.calls[c].SignInTaken? && !s.calls[c].CheckTaken? && !s.calls[c].SignInSent?
    requires HeldOk(s, HeldByCall(s.calls[c])) && HeldOk(s, HeldByAuth(s.auth))
    requires LastEvent(s.log, |s.kinds|) == None
    ensures var t := Next(s, Advance(c, answer));
            HeldOk(t, HeldByCall(t.calls[c]))
  {
  }

  lemma {:induction false} RunKeepsInv(s: State, actions: seq<Action>)
    requires Inv(s) && Runs(s, actions)
    ensures Inv(Run(s, actions))
    decreases |actions|
  {
    if actions != [] {
      StepKeepsInv(s, actions[0]);
      RunKeepsInv(Next(s, actions[0]), actions[1..]);
    }
  }

  // ---------------------------------------------------------------- linearity

  /** In every interleaving a token is in at most one place: the field or a single call. */
  lemma TokensAreLinear(actions: seq<Action>, c: nat, d: nat)
    requires Runs(INIT, actions)
    requires c < d < |Run(INIT, actions).calls|
    ensures var s := Run(INIT, actions);
            && Apart(HeldByCall(s.calls[c]), HeldByCall(s.calls[d]))
            && Apart(HeldByCall(s.calls[c]), HeldByAuth(s.auth))
  {
    RunKeepsInv(INIT, actions);
  }

  lemma {:induction false} LastEventAt(log: seq<Event>, token: nat, i: nat) returns (m: nat)
    requires i < |log| && log[i].token == token
    ensures i <= m < |log| && LastEvent(log, token) == Some(log[m]) && log[m].token == token
  {
    if log[|log| - 1].token == token {
      m := |log| - 1;
    } else {
      m := LastEventAt(log[..|log| - 1], token, i);
    }
  }

  /**
   In every interleaving no password token is submitted twice, and a login token is submitted again
   only after the server answered its earlier submission with a wrong code.
   */
  lemma NothingIsSubmittedTwice(actions: seq<Action>, i: nat, j: nat, token: nat)
    requires Runs(INIT, actions)
    requires i < j < |Run(INIT, actions).log|
    requires Run(INIT, actions).log[i] == Run(INIT, actions).log[j] == Submitted(token)
    ensures var s := Run(INIT, actions);
            && token < |s.kinds| && s.kinds[token] == LoginToken
            && exists m :: i < m < j && s.log[m] == Answered(token, WrongCode)
  {
    RunKeepsInv(INIT, actions);
    var s := Run(INIT, actions);
    assert MaySubmit(s.log[..j], s.kinds[s.log[j].token], s.log[j].token);
    assert s.log[..j][i] == s.log[i];
    var m := LastEventAt(s.log[..j], token, i);
    assert s.log[m] == s.log[..j][m] == Answered(token, WrongCode);
  }

  /**
   What the linearity does not promise: a sign-in that puts its token back may do so after a later code
   request has stored a newer one. The newer token is then in no place at all, so a run of calls that
   have all returned need not leave the field as any order of them would that ends with the request.
   */
  lemma PutBackMayLoseANewerCode()
    ensures Leads(INIT, State(LoginCode(0), [Done(CodeRequested), Done(InvalidCode), Done(CodeRequested)],
                              [LoginToken, LoginToken], [Submitted(0), Answered(0, WrongCode)]))
  {
    var requested := State(LoginCode(0), [Done(CodeRequested)], [LoginToken], []);
    var p := [Invoke(RequestCode), Advance(0, Yes), Advance(0, Yes)];
    RunOf3(INIT, p);
    assert Run(INIT, p) == requested;
    var refused := SignInIsRefused(requested);
    var renewed := CodeIsRenewed(refused);
    assert Run(renewed, [Advance(1, Yes)]) ==
           renewed.(auth := LoginCode(0), calls := renewed.calls[1 := Done(InvalidCode)]);
    LeadsOn(INIT, requested, refused);
    LeadsOn(INIT, refused, renewed);
    LeadsOn(INIT, renewed, Run(renewed, [Advance(1, Yes)]));
  }

  ghost predicate Leads(s: State, t: State) {
    exists actions :: Runs(s, actions) && Run(s, actions) == t
  }

  lemma LeadsOn(s: State, t: State, u: State)
    requires Leads(s, t) && Leads(t, u)
    ensures Leads(s, u)
  {
    var p :| Runs(s, p) && Run(s, p) == t;
    var q :| Runs(t, q) && Run(t, q) == u;
    RunAppend(s, p, q);
  }

  /** A sign-in takes the token and hears that its code was wrong, but has not put the token back. */
  lemma SignInIsRefused(s: State) returns (t: State)
    requires s == State(LoginCode(0), [Done(CodeRequested)], [LoginToken], [])
    ensures Leads(s, t)
    ensures t == State(Idle, [Done(CodeRequested), SignInStoring(LoginToken, 0)], [LoginToken],
                       [Submitted(0), Answered(0, WrongCode)])
  {
    var p := [Invoke(SignIn), Advance(1, Yes), Advance(1, Yes), Advance(1, WrongCode)];
    RunOf4(s, p);
    t := Run(s, p);
  }

  /** Before it does, a second code request stores a newer token. */
  lemma CodeIsRenewed(s: State) returns (t: State)
    requires s == State(Idle, [Done(CodeRequested), SignInStoring(LoginToken, 0)], [LoginToken],
                        [Submitted(0), Answered(0, WrongCode)])
    ensures Leads(s, t)
    ensures t == s.(auth := LoginCode(1), calls := s.calls + [Done(CodeRequested)], kinds := [LoginToken, LoginToken])
  {
    var p := [Invoke(RequestCode), Advance(2, Yes), Advance(2, Yes)];
    RunOf3(s, p);
    t := Run(s, p);
  }

  lemma RunOf3(s: State, p: seq<Action>)
    requires |p| == 3 && Enabled(s, p[0]) && Enabled(Next(s, p[0]), p[1])
    requires Enabled(Next(Next(s, p[0]), p[1]), p[2])
    ensures Runs(s, p) && Run(s, p) == Next(Next(Next(s, p[0]), p[1]), p[2])
  {
    var s1 := Next(s, p[0]);
    var s2 := Next(s1, p[1]);
    assert Runs(s2, p[1..][1..]) && Run(s2, p[1..][1..]) == Next(s2, p[2]);
    assert Runs(s1, p[1..]) && Run(s1, p[1..]) == Next(s2, p[2]);
  }

  lemma RunOf4(s: State, p: seq<Action>)
    requires |p| == 4 && Enabled(s, p[0]) && Enabled(Next(s, p[0]), p[1])
    requires Enabled(Next(Next(s, p[0]), p[1]), p[2])
    requires Enabled(Next(Next(Next(s, p[0]), p[1]), p[2]), p[3])
    ensures Runs(s, p) && Run(s, p) == Next(Next(Next(Next(s, p[0]), p[1]), p[2]), p[3])
  {
    RunOf3(Next(s, p[0]), p[1..]);
  }

  lemma {:induction false} RunAppend(s: State, p: seq<Action>, q: seq<Action>)
    requires Runs(s, p) && Runs(Run(s, p), q)
    ensures Runs(s, p + q) && Run(s, p + q) == Run(Run(s, p), q)
    decreases |p|
  {
    if p == [] {
      assert p + q == q;
    } else {
      RunAppend(Next(s, p[0]), p[1..], q);
      assert (p + q)[0] == p[0] && (p + q)[1..] == p[1..] + q;
    }
  }

  // ---------------------------------------------------------------- the steps of one call

  /** A call whose steps nothing interrupts does to the field what its handler does. */
  lemma UninterruptedCall(s: State, op: Op, answer: Answer) returns (actions: seq<Action>)
    ensures Runs(s, [Invoke(op)] + actions)
    ensures var t := Run(s, [Invoke(op)] + actions);
            var (after, outcome) := Handle(Session(s.auth, |s.kinds|), op, answer);
            && Session(t.auth, |t.kinds|) == after
            && t.calls == s.calls + [Done(outcome)]
  {
    var c := |s.calls|;
    var step := Advance(c, answer);
    var s0 := Next(s, Invoke(op));
    var s1 := Next(s0, step);
    if s1.calls[c].Done? {
      actions := [step];
      Unroll1(s, Invoke(op), step);
    } else {
      var s2 := Next(s1, step);
      if s2.calls[c].Done? {
        actions := [step, step];
        Unroll2(s, Invoke(op), step);
      } else {
        var s3 := Next(s2, step);
        if s3.calls[c].Done? {
          actions := [step, step, step];
          Unroll3(s, Invoke(op), step);
        } else {
          actions := [step, step, step, step];
          Unroll4(s, Invoke(op), step);
        }
      }
    }
  }

  lemma Unroll1(s: State, a: Action, b: Action)
    requires Enabled(s, a) && Enabled(Next(s, a), b)
    ensures Runs(s, [a] + [b]) && Run(s, [a] + [b]) == Next(Next(s, a), b)
  {
    var t := Next(s, a);
    var u := Next(t, b);
    assert Runs(u, []) && Run(u, []) == u;
    assert [b][1..] == [];
    assert Runs(t, [b]) by {
      assert Runs(u, [b][1..]);
    }
    assert Run(t, [b]) == Run(u, [b][1..]) == u;
    assert ([a] + [b])[1..] == [b];
  }

  lemma Unroll2(s: State, a: Action, b: Action)
    requires Enabled(s, a) && Enabled(Next(s, a), b) && Enabled(Next(Next(s, a), b), b)
    ensures Runs(s, [a] + [b, b]) && Run(s, [a] + [b, b]) == Next(Next(Next(s, a), b), b)
  {
    Unroll1(Next(s, a), b, b);
    assert ([a] + [b, b])[1..] == [b] + [b];
  }

  lemma Unroll3(s: State, a: Action, b: Action)
    requires Enabled(s, a) && Enabled(Next(s, a), b) && Enabled(Next(Next(s, a), b), b)
    requires Enabled(Next(Next(Next(s, a), b), b), b)
    ensures Runs(s, [a] + [b, b, b]) && Run(s, [a] + [b, b, b]) == Next(Next(Next(Next(s, a), b), b), b)
  {
    Unroll2(Next(s, a), b, b);
    assert ([a] + [b, b, b])[1..] == [b] + [b, b];
  }

  lemma Unroll4(s: State, a: Action, b: Action)
    requires Enabled(s, a) && Enabled(Next(s, a), b) && Enabled(Next(Next(s, a), b), b)
    requires Enabled(Next(Next(Next(s, a), b), b), b) && Enabled(Next(Next(Next(Next(s, a), b), b), b), b)
    ensures Runs(s, [a] + [b, b, b, b])
    ensures Run(s, [a] + [b, b, b, b]) == Next(Next(Next(Next(Next(s, a), b), b), b), b)
  {
    Unroll3(Next(s, a), b, b);
    assert ([a] + [b, b, b, b])[1..] == [b] + [b, b, b];
  }
}
