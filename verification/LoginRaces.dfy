/**
 What concurrent login calls of `native/src/ops/auth.rs` can lose or bring back. A sign-in holds its token
 outside the lock while the server is asked, and may store one afterwards: over a newer token, or after
 a sign-out has cleared the field. Each is shown by an interleaving, and then exactly when it happens.
 */
module LoginRaces {
  import opened Wrappers
  import opened Login

  // ---------------------------------------------------------------- what a store discards

  predicate Holds(h: Held, token: nat) {
    !h.Nothing? && h.token == token
  }

  /** The token is in the field or with a call. */
  ghost predicate InPlay(s: State, token: nat) {
    Holds(HeldByAuth(s.auth), token) || exists c :: 0 <= c < |s.calls| && Holds(HeldByCall(s.calls[c]), token)
  }

  ghost predicate Discards(s: State, t: State) {
    exists token :: InPlay(s, token) && !InPlay(t, token)
  }

  predicate Stores(p: Phase) {
    p.RequestStoring? || p.SignInStoring?
  }

  /** Storing a token discards exactly the one the field holds, and nothing when the field is idle. */
  lemma StoreDiscards(s: State, c: nat, answer: Answer, token: nat)
    requires Inv(s) && c < |s.calls| && Stores(s.calls[c])
    ensures InPlay(s, token) && !InPlay(Next(s, Advance(c, answer)), token) <==> Holds(HeldByAuth(s.auth), token)
  {
    var t := Next(s, Advance(c, answer));
    assert Apart(HeldByCall(s.calls[c]), HeldByAuth(s.auth));
    if InPlay(s, token) && !Holds(HeldByAuth(s.auth), token) {
      var d :| 0 <= d < |s.calls| && Holds(HeldByCall(s.calls[d]), token);
      assert d != c ==> Holds(HeldByCall(t.calls[d]), token);
    }
    if Holds(HeldByAuth(s.auth), token) {
      forall d | 0 <= d < |t.calls|
        ensures !Holds(HeldByCall(t.calls[d]), token)
      {
        assert Apart(HeldByCall(s.calls[d]), HeldByAuth(s.auth));
      }
    }
  }

  lemma StoreDiscardsIff(s: State, c: nat, answer: Answer)
    requires Inv(s) && c < |s.calls| && Stores(s.calls[c])
    ensures Discards(s, Next(s, Advance(c, answer))) <==> s.auth != Idle
  {
    var t := Next(s, Advance(c, answer));
    forall token: nat
      ensures InPlay(s, token) && !InPlay(t, token) <==> Holds(HeldByAuth(s.auth), token)
    {
      StoreDiscards(s, c, answer, token);
    }
    if s.auth != Idle {
      assert Holds(HeldByAuth(s.auth), s.auth.token);
    }
  }

  // ---------------------------------------------------------------- when the field is set

  predicate StoreStep(s: State, a: Action, c: nat)
    requires Enabled(s, a)
  {
    a.Advance? && a.call != c && Stores(s.calls[a.call])
  }

  /** A token is taken, or the field is cleared. */
  predicate ClearStep(s: State, a: Action)
    requires Enabled(s, a)
  {
    a.Advance? && (s.calls[a.call].SignInStart? || s.calls[a.call].CheckStart? || s.calls[a.call].SignOutStoring?)
  }

  predicate NeverCleared(s: State, actions: seq<Action>)
    requires Runs(s, actions)
    decreases |actions|
  {
    actions == [] || (!ClearStep(s, actions[0]) && NeverCleared(Next(s, actions[0]), actions[1..]))
  }

  /** A call other than `c` stores a token that is neither taken nor cleared in the rest of the run. */
  predicate StoredSince(s: State, actions: seq<Action>, c: nat)
    requires Runs(s, actions)
    decreases |actions|
  {
    && actions != []
    && var t := Next(s, actions[0]);
       (StoreStep(s, actions[0], c) && NeverCleared(t, actions[1..])) || StoredSince(t, actions[1..], c)
  }

  lemma {:induction false} DoneStays(s: State, actions: seq<Action>, c: nat)
    requires Runs(s, actions) && c < |s.calls| && s.calls[c].Done?
    ensures c < |Run(s, actions).calls| && Run(s, actions).calls[c].Done?
    decreases |actions|
  {
    if actions != [] {
      DoneStays(Next(s, actions[0]), actions[1..], c);
    }
  }

  /** The step's effect on the field: set by a store, idle after a clear, and kept otherwise. */
  lemma FieldAfter(s: State, a: Action)
    requires Enabled(s, a)
    ensures a.Advance? && Stores(s.calls[a.call]) ==> Next(s, a).auth != Idle && Next(s, a).calls[a.call].Done?
    ensures ClearStep(s, a) ==> Next(s, a).auth == Idle
    ensures !(a.Advance? && Stores(s.calls[a.call])) && !ClearStep(s, a) ==> Next(s, a).auth == s.auth
    ensures |Next(s, a).calls| >= |s.calls|
  {
  }

  predicate Pending(s: State, c: nat) {
    c < |s.calls| && !s.calls[c].Done?
  }

  predicate PuttingBack(s: State, c: nat) {
    c < |s.calls| && s.calls[c].SignInStoring?
  }

  lemma {:induction false} FieldIsSetIff(s: State, actions: seq<Action>, c: nat)
    requires Runs(s, actions) && c < |s.calls| && Pending(Run(s, actions), c)
    ensures Run(s, actions).auth != Idle <==>
            StoredSince(s, actions, c) || (s.auth != Idle && NeverCleared(s, actions))
    decreases |actions|
  {
    if actions != [] {
      var a, t := actions[0], Next(s, actions[0]);
      FieldAfter(s, a);
      if a.Advance? && a.call == c && Stores(s.calls[c]) {
        DoneStays(t, actions[1..], c);
      }
      FieldIsSetIff(t, actions[1..], c);
    }
  }

  /** What the put-back of call `c` at the end of a run discards: something, or nothing. */
  ghost predicate LosesAt(s: State, between: seq<Action>, c: nat)
    requires Runs(s, between) && PuttingBack(Run(s, between), c)
  {
    Discards(Run(s, between), Next(Run(s, between), Advance(c, Yes)))
  }

  lemma LosesIff(s: State, between: seq<Action>, c: nat)
    requires Inv(s) && Runs(s, between) && PuttingBack(Run(s, between), c)
    ensures LosesAt(s, between, c) <==> Run(s, between).auth != Idle
  {
    RunKeepsInv(s, between);
    StoreDiscardsIff(Run(s, between), c, Yes);
  }

  /** The state in which a sign-in has just emptied the field. */
  function Taken(before: seq<Action>, c: nat): (s: State)
    requires Runs(INIT, before) && c < |Run(INIT, before).calls| && Run(INIT, before).calls[c].SignInStart?
    ensures Inv(s) && s.auth == Idle && c < |s.calls|
  {
    RunKeepsInv(INIT, before);
    StepKeepsInv(Run(INIT, before), Advance(c, Yes));
    Next(Run(INIT, before), Advance(c, Yes))
  }

  /**
   In every interleaving, a sign-in that took its token and now stores one discards a token if and only if
   the field is not idle, and it is not idle if and only if another call stored a token in between that
   was neither taken nor cleared since.
   */
  lemma PutBackDiscardsIff(before: seq<Action>, c: nat, between: seq<Action>)
    requires Runs(INIT, before) && c < |Run(INIT, before).calls| && Run(INIT, before).calls[c].SignInStart?
    requires Runs(Taken(before, c), between) && PuttingBack(Run(Taken(before, c), between), c)
    ensures LosesAt(Taken(before, c), between, c) <==> Run(Taken(before, c), between).auth != Idle
    ensures LosesAt(Taken(before, c), between, c) <==> StoredSince(Taken(before, c), between, c)
  {
    LosesIff(Taken(before, c), between, c);
    FieldIsSetIff(Taken(before, c), between, c);
  }

  // ---------------------------------------------------------------- what a caller can check

  /** A code request in flight, or a sign-in past its take: the calls that can still store a token. */
  predicate CanStore(p: Phase) {
    p.RequestSent? || p.RequestStoring? || p.SignInTaken? || p.SignInSent? || p.SignInStoring?
  }

  /** No call but `c` can store a token. */
  ghost predicate Alone(s: State, c: nat) {
    forall d | 0 <= d < |s.calls| && d != c :: !CanStore(s.calls[d])
  }

  /** No code is requested and no sign-in begun. */
  predicate NoneBegun(actions: seq<Action>) {
    forall i | 0 <= i < |actions| :: actions[i] != Invoke(RequestCode) && actions[i] != Invoke(SignIn)
  }

  /** With the field idle and nobody else able to store, no step changes either. */
  lemma StaysAlone(s: State, a: Action, c: nat)
    requires Enabled(s, a) && s.auth == Idle && Alone(s, c) && c < |s.calls|
    requires a != Invoke(RequestCode) && a != Invoke(SignIn)
    requires a.Advance? && a.call == c ==> !Stores(s.calls[c])
    ensures Next(s, a).auth == Idle && Alone(Next(s, a), c)
  {
    var t := Next(s, a);
    FieldAfter(s, a);
    forall d | 0 <= d < |t.calls| && d != c
      ensures !CanStore(t.calls[d])
    {
      assert d < |s.calls| ==> !CanStore(s.calls[d]);
    }
  }

  lemma {:induction false} AloneNothingIsStored(s: State, actions: seq<Action>, c: nat)
    requires Runs(s, actions) && NoneBegun(actions) && s.auth == Idle && Alone(s, c) && c < |s.calls|
    requires Pending(Run(s, actions), c)
    ensures Run(s, actions).auth == Idle
    decreases |actions|
  {
    if actions != [] {
      var a := actions[0];
      assert a != Invoke(RequestCode) && a != Invoke(SignIn);
      if a.Advance? && a.call == c && Stores(s.calls[c]) {
        FieldAfter(s, a);
        DoneStays(Next(s, a), actions[1..], c);
      }
      StaysAlone(s, a, c);
      assert forall i | 0 <= i < |actions| - 1 :: actions[1..][i] == actions[i + 1];
      AloneNothingIsStored(Next(s, a), actions[1..], c);
    }
  }

  /** What the server may answer to lead a call to its store, with the token it holds if it holds one. */
  function Leading(p: Phase): (a: Answer) {
    if p.SignInSent? then WrongCode else Yes
  }

  function StepsToStore(p: Phase): (n: nat) {
    match p
    case RequestSent => 2
    case SignInTaken(_) => 3
    case SignInSent(_) => 2
    case _ => 1
  }

  /** The steps of one such call alone up to its store; no other call moves. */
  lemma LeadToStore(s: State, d: nat) returns (actions: seq<Action>)
    requires Inv(s) && d < |s.calls| && CanStore(s.calls[d])
    ensures Runs(s, actions) && NoneBegun(actions)
    ensures var t := Run(s, actions);
            && Inv(t) && t.auth != Idle && |t.calls| == |s.calls|
            && (!s.calls[d].RequestSent? ==> t.auth.token == HeldByCall(s.calls[d]).token)
            && forall c | 0 <= c < |s.calls| && c != d :: t.calls[c] == s.calls[c]
    decreases StepsToStore(s.calls[d])
  {
    var a := Advance(d, Leading(s.calls[d]));
    var t := Next(s, a);
    StepKeepsInv(s, a);
    var rest: seq<Action> := [];
    if !Stores(s.calls[d]) {
      rest := LeadToStore(t, d);
    }
    actions := [a] + rest;
    assert actions[1..] == rest;
  }

  /** The steps of a sign-in alone from its take to where it puts its token back. */
  lemma LeadToPutBack(s: State, c: nat) returns (actions: seq<Action>)
    requires c < |s.calls| && s.calls[c].SignInTaken?
    ensures Runs(s, actions) && NoneBegun(actions)
    ensures PuttingBack(Run(s, actions), c) && Run(s, actions).auth == s.auth
  {
    var sent := Next(s, Advance(c, Yes));
    var told := Next(sent, Advance(c, WrongCode));
    actions := [Advance(c, Yes), Advance(c, WrongCode)];
    assert Runs(told, []) && Run(told, []) == told;
    assert actions[1..][1..] == [];
    assert Runs(sent, actions[1..]) && Run(sent, actions[1..]) == told;
  }

  lemma LeadToLoss(s: State, c: nat) returns (between: seq<Action>)
    requires Inv(s) && c < |s.calls| && s.calls[c].SignInTaken? && !Alone(s, c)
    ensures Runs(s, between) && NoneBegun(between) && PuttingBack(Run(s, between), c) && LosesAt(s, between, c)
  {
    var d :| 0 <= d < |s.calls| && d != c && CanStore(s.calls[d]);
    var p := LeadToStore(s, d);
    var q := LeadToPutBack(Run(s, p), c);
    RunAppend(s, p, q);
    between := p + q;
    LosesIff(s, between, c);
  }

  /**
   For every state a sign-in has just taken its token in: some run in which no code is requested and no
   sign-in begun ends in its put-back discarding a token if and only if a code request, or another
   sign-in past its take, is in flight already. So without such an overlap nothing is ever lost.
   */
  lemma PutBackMayDiscardIff(s: State, c: nat)
    requires Inv(s) && c < |s.calls| && s.calls[c].SignInTaken? && s.auth == Idle
    ensures (exists between ::
               Runs(s, between) && NoneBegun(between) && PuttingBack(Run(s, between), c) && LosesAt(s, between, c))
            <==> !Alone(s, c)
  {
    if Alone(s, c) {
      forall between | Runs(s, between) && NoneBegun(between) && PuttingBack(Run(s, between), c)
        ensures !LosesAt(s, between, c)
      {
        AloneNothingIsStored(s, between, c);
        LosesIff(s, between, c);
      }
    } else {
      var between := LeadToLoss(s, c);
    }
  }

  // ---------------------------------------------------------------- after a sign-out

  /** The calls that carry a login token and can still store it. */
  predicate CarriesBack(p: Phase) {
    p.RequestStoring? || p.SignInTaken? || p.SignInSent? || p.SignInStoring?
  }

  /** The field holds a token handed out before there were `n`. */
  predicate HoldsOld(a: Auth, n: nat) {
    a != Idle && a.token < n
  }

  /** Neither the field nor a call that could store it has a token older than that. */
  ghost predicate NoneOld(s: State, n: nat) {
    && n <= |s.kinds| && !HoldsOld(s.auth, n)
    && forall c | 0 <= c < |s.calls| && CarriesBack(s.calls[c]) :: HeldByCall(s.calls[c]).token >= n
  }

  lemma StepKeepsNoneOld(s: State, a: Action, n: nat)
    requires Enabled(s, a) && NoneOld(s, n)
    ensures NoneOld(Next(s, a), n)
  {
    var t := Next(s, a);
    if a.Advance? {
      var c := a.call;
      StepFrame(s, c, a.answer);
      assert CarriesBack(s.calls[c]) ==> HeldByCall(s.calls[c]).token >= n;
      forall d | 0 <= d < |t.calls| && CarriesBack(t.calls[d])
        ensures HeldByCall(t.calls[d]).token >= n
      {
        if d != c {
          assert t.calls[d] == s.calls[d];
        }
      }
    } else {
      forall d | 0 <= d < |t.calls| && CarriesBack(t.calls[d])
        ensures HeldByCall(t.calls[d]).token >= n
      {
        assert d < |s.calls| ==> t.calls[d] == s.calls[d];
      }
    }
  }

  lemma {:induction false} RunKeepsNoneOld(s: State, actions: seq<Action>, n: nat)
    requires Runs(s, actions) && NoneOld(s, n)
    ensures NoneOld(Run(s, actions), n)
    decreases |actions|
  {
    if actions != [] {
      StepKeepsNoneOld(s, actions[0], n);
      RunKeepsNoneOld(Next(s, actions[0]), actions[1..], n);
    }
  }

  /**
   In every interleaving, when a sign-out clears the field: no later state has a token from before in it
   again if and only if no code request about to store and no sign-in past its take is in flight then.
   */
  lemma SignOutIsFinalIff(actions: seq<Action>, c: nat, answer: Answer)
    requires Runs(INIT, actions) && c < |Run(INIT, actions).calls| && Run(INIT, actions).calls[c].SignOutStoring?
    ensures var s := Next(Run(INIT, actions), Advance(c, answer));
            && s.auth == Idle
            && ((forall later | Runs(s, later) :: !HoldsOld(Run(s, later).auth, |s.kinds|))
                <==> forall d | 0 <= d < |s.calls| :: !CarriesBack(s.calls[d]))
  {
    RunKeepsInv(INIT, actions);
    StepKeepsInv(Run(INIT, actions), Advance(c, answer));
    var s := Next(Run(INIT, actions), Advance(c, answer));
    if forall d | 0 <= d < |s.calls| :: !CarriesBack(s.calls[d]) {
      forall later | Runs(s, later)
        ensures !HoldsOld(Run(s, later).auth, |s.kinds|)
      {
        RunKeepsNoneOld(s, later, |s.kinds|);
      }
    } else {
      var d :| 0 <= d < |s.calls| && CarriesBack(s.calls[d]);
      assert HeldOk(s, HeldByCall(s.calls[d]));
      var later := LeadToStore(s, d);
      assert HoldsOld(Run(s, later).auth, |s.kinds|);
    }
  }

  /** Such a run: a code is requested, a sign-in with a wrong code waits to put it back, a sign-out clears. */
  lemma PutBackUndoesSignOut()
    ensures Leads(INIT, State(LoginCode(0), [Done(CodeRequested), Done(InvalidCode), Done(SignedOut)],
                              [LoginToken], [Submitted(0), Answered(0, WrongCode)]))
  {
    var requested := State(LoginCode(0), [Done(CodeRequested)], [LoginToken], []);
    var p := [Invoke(RequestCode), Advance(0, Yes), Advance(0, Yes)];
    RunOf3(INIT, p);
    assert Run(INIT, p) == requested;
    var refused := SignInIsRefused(requested);
    var cleared := SignOutClears(refused);
    assert Run(cleared, [Advance(1, Yes)]) ==
           cleared.(auth := LoginCode(0), calls := cleared.calls[1 := Done(InvalidCode)]);
    LeadsOn(INIT, requested, refused);
    LeadsOn(INIT, refused, cleared);
    LeadsOn(INIT, cleared, Run(cleared, [Advance(1, Yes)]));
  }

  lemma SignOutClears(s: State) returns (t: State)
    requires s == State(Idle, [Done(CodeRequested), SignInStoring(LoginToken, 0)], [LoginToken],
                        [Submitted(0), Answered(0, WrongCode)])
    ensures Leads(s, t) && t == s.(calls := s.calls + [Done(SignedOut)])
  {
    var p := [Invoke(SignOut), Advance(2, Yes), Advance(2, Yes)];
    RunOf3(s, p);
    t := Run(s, p);
  }
}
