/** Authentication of the client by the gateway: the sets of allowed, required and succeeded methods,
    the handlers that change them, and the replies that conclude the client's authentication. */
module ClientAuth {

  datatype Option<T> = None | Some(value: T)

  /** The method bits of the three masks. */
  datatype Kind = Password | Publickey | Interactive | OpenId

  datatype Mode = Gateway | Bastion | Shell | ChefRemote

  /** Results of a method handler. */
  datatype Response = Success | PkOk | Info | Failed | Error

  /** Chef's verdict on a password. */
  datatype Verdict = Accept | Deny | Fault

  /** The method lists of the session context; absent lists change nothing. */
  datatype Context = Context(preferred: Option<seq<string>>, required: Option<seq<string>>)

  datatype Key =
    | NoKey                                    // none in the message, or not a public key, or not exportable
    | Unsigned(algorithm: bool, allowed: bool, known: bool)
    | Signed(known: bool)                      // the signature is already verified
    | WrongSignature
    | OtherState

  datatype Attempt =
    | Nothing                                  // "none", or an unknown method
    | TryPassword(password: Option<string>, verdict: Verdict)
    | TryInteractive(isResponse: bool, answers: nat, answer: Option<string>, verdict: Verdict)
    | TryPublickey(key: Key)

  datatype Message =
    | Silence(connected: bool)
    | Service
    | Request(loginOk: bool, mode: Mode, proxyOk: bool, context: Option<Context>, attempt: Attempt, tooMany: bool)

  /** One round of the loop as the environment plays it. */
  datatype Turn = Turn(expired: bool, oidcSignal: bool, message: Message)

  /** Exited: the gateway disconnected and ended; Pending: the script of turns is over. */
  datatype Outcome = Returned(ok: bool) | Exited | Pending

  datatype Reply = FullSuccess | PartialSuccess | Disconnect

  // ----- Loading the session context -----------------------------------------------

  function PreferredKinds(name: string): set<Kind> {
    if name == "publickey" then {Publickey}
    else if name == "password" then {Password}
    else if name == "keyboard-interactive" then {Interactive}
    else if name == "interactive" then {Password, Interactive}
    else if name == "openid-connect" then {OpenId}
    else {}
  }

  function RequiredKinds(name: string): set<Kind> {
    if name == "publickey" then {Publickey}
    else if name == "interactive" then {Interactive}
    else if name == "openid-connect" then {OpenId}
    else {}
  }

  function AllPreferred(names: seq<string>): set<Kind> {
    if names == [] then {} else PreferredKinds(names[0]) + AllPreferred(names[1..])
  }

  function AllRequired(names: seq<string>): set<Kind> {
    if names == [] then {} else RequiredKinds(names[0]) + AllRequired(names[1..])
  }

  lemma {:induction false} PreferredAppend(names: seq<string>, name: string)
    ensures AllPreferred(names + [name]) == AllPreferred(names) + PreferredKinds(name)
    ensures AllRequired(names + [name]) == AllRequired(names) + RequiredKinds(name)
  {
    if names == [] {
      assert names + [name] == [name] && [name][1..] == [];
    } else {
      PreferredAppend(names[1..], name);
      assert (names + [name])[0] == names[0] && (names + [name])[1..] == names[1..] + [name];
    }
  }

  /** What is required is also offered; so a non-empty list of required methods can be met. */
  lemma {:induction false} RequiredIsPreferred(names: seq<string>)
    ensures AllRequired(names) <= AllPreferred(names)
  {
    if names != [] {
      RequiredIsPreferred(names[1..]);
    }
  }

  /** The allowed set after loading: a present list of preferred methods replaces the old set, and a
      non-empty list of required methods replaces both. */
  function AllowedAfter(allowed: set<Kind>, context: Context): set<Kind> {
    if context.required.Some? && context.required.value != [] then AllPreferred(context.required.value)
    else if context.preferred.Some? then AllPreferred(context.preferred.value)
    else allowed
  }

  function RequiredOf(context: Context): set<Kind> {
    if context.required.Some? then AllRequired(context.required.value) else {}
  }

  lemma RequiredIsAllowed(allowed: set<Kind>, context: Context)
    ensures RequiredOf(context) <= AllowedAfter(allowed, context)
  {
    if context.required.Some? {
      RequiredIsPreferred(context.required.value);
    }
  }

  // ----- What counts as evidence ---------------------------------------------------

  /** A password that reached Chef, by either password-based method, and met this verdict. */
  predicate Answers(attempt: Attempt, met: Verdict) {
    match attempt
    case TryPassword(password, verdict) => password.Some? && password.value != "" && verdict == met
    case TryInteractive(isResponse, answers, answer, verdict) => isResponse && answers == 1 && answer.Some? && verdict == met
    case _ => false
  }

  /** A turn in which the client really passes a method of this kind. */
  predicate Genuine(turn: Turn, kind: Kind) {
    match kind
    case Publickey => turn.message.Request? && turn.message.attempt == TryPublickey(Signed(true))
    case OpenId => turn.oidcSignal
    case Interactive =>
      turn.message.Request? && Answers(turn.message.attempt, Accept)
    case Password => false
  }

  predicate Proven(turns: seq<Turn>, kinds: set<Kind>) {
    forall kind :: kind in kinds ==> exists i :: 0 <= i < |turns| && Genuine(turns[i], kind)
  }

  /** Chef answered a password with an error. */
  predicate Faulty(turn: Turn) {
    turn.message.Request? && Answers(turn.message.attempt, Fault)
  }

  // ----- Concluding the client's authentication ------------------------------------

  /** What the conclusion depends on. */
  datatype Conclusion = Conclusion(allowed: set<Kind>, shell: bool, authenticated: bool, targetAuthenticated: bool,
                                   message: bool, partialSent: bool, finishSent: bool)

  /** One call: the new state and the replies to the client. */
  function Concluded(s: Conclusion, successful: bool): (Conclusion, seq<Reply>) {
    if successful || (s.authenticated && (s.shell || s.targetAuthenticated)) then
      (s.(finishSent := true), if s.finishSent then [] else [FullSuccess])
    else if !s.authenticated || s.message || s.partialSent then (s, [])
    else if Interactive in s.allowed || Password in s.allowed then
      (s.(allowed := s.allowed * {Interactive, Password}, partialSent := true), [PartialSuccess])
    else (s, [Disconnect])
  }

  /** A call, or any change of the session by others, who never touch the two sent flags. */
  datatype Act = Finish(successful: bool) | Change(to: Conclusion)

  datatype Sent = Sent(before: Conclusion, successful: bool, reply: Reply)

  function Replies(s: Conclusion, acts: seq<Act>): seq<Sent>
    decreases |acts|
  {
    if acts == [] then []
    else match acts[0]
         case Change(to) => Replies(to.(partialSent := s.partialSent, finishSent := s.finishSent), acts[1..])
         case Finish(successful) =>
           var (next, replies) := Concluded(s, successful);
           if replies == [] then Replies(next, acts[1..])
           else [Sent(s, successful, replies[0])] + if replies[0] == Disconnect then [] else Replies(next, acts[1..])
  }

  function Times(sent: seq<Sent>, reply: Reply): nat {
    if sent == [] then 0 else (if sent[0].reply == reply then 1 else 0) + Times(sent[1..], reply)
  }

  /** At most one success and at most one partial success over any run, none of which was sent before. */
  lemma {:induction false} EachReplyOnce(s: Conclusion, acts: seq<Act>)
    ensures Times(Replies(s, acts), FullSuccess) <= if s.finishSent then 0 else 1
    ensures Times(Replies(s, acts), PartialSuccess) <= if s.partialSent then 0 else 1
    decreases |acts|
  {
    if acts != [] {
      match acts[0]
      case Change(to) => EachReplyOnce(to.(partialSent := s.partialSent, finishSent := s.finishSent), acts[1..]);
      case Finish(successful) =>
        var (next, replies) := Concluded(s, successful);
        EachReplyOnce(next, acts[1..]);
        if replies != [] {
          var sent := Replies(s, acts);
          assert sent[0] == Sent(s, successful, replies[0]);
          assert sent[1..] == if replies[0] == Disconnect then [] else Replies(next, acts[1..]);
        }
    }
  }

  /** When each reply is sent, anywhere in any run: success without being asked for only to an
      authenticated client, in shell mode or after the target's success; partial success never while a
      keyboard-interactive exchange is open, and only with a method left to continue with. */
  lemma {:induction false} RepliesAreDue(s: Conclusion, acts: seq<Act>, k: nat)
    requires k < |Replies(s, acts)|
    ensures var sent := Replies(s, acts)[k];
            && (sent.reply == FullSuccess && !sent.successful ==>
                  sent.before.authenticated && (sent.before.shell || sent.before.targetAuthenticated))
            && (sent.reply != FullSuccess ==>
                  !sent.successful && sent.before.authenticated && !sent.before.shell && !sent.before.targetAuthenticated
                  && !sent.before.message && !sent.before.partialSent)
            && (sent.reply != FullSuccess ==>
                  (sent.reply == Disconnect <==> Interactive !in sent.before.allowed && Password !in sent.before.allowed))
    decreases |acts|
  {
    match acts[0]
    case Change(to) => RepliesAreDue(to.(partialSent := s.partialSent, finishSent := s.finishSent), acts[1..], k);
    case Finish(successful) =>
      var (next, replies) := Concluded(s, successful);
      if replies == [] {
        RepliesAreDue(next, acts[1..], k);
      } else if k > 0 {
        RepliesAreDue(next, acts[1..], k - 1);
      }
  }

  /** The calls of a run, and the runs whose changes never take back an authentication or the mode. */
  function Calls(acts: seq<Act>): seq<bool> {
    if acts == [] then []
    else (if acts[0].Finish? then [acts[0].successful] else []) + Calls(acts[1..])
  }

  predicate Sticky(s: Conclusion, acts: seq<Act>)
    decreases |acts|
  {
    acts == [] ||
    match acts[0]
    case Change(to) =>
      && (s.authenticated ==> to.authenticated) && (s.shell ==> to.shell) && (s.targetAuthenticated ==> to.targetAuthenticated)
      && Sticky(to.(partialSent := s.partialSent, finishSent := s.finishSent), acts[1..])
    case Finish(successful) => Sticky(Concluded(s, successful).0, acts[1..])
  }

  /** No call that may send less follows one that sends full success. */
  predicate Ordered(calls: seq<bool>) {
    forall i, j :: 0 <= i < j < |calls| && calls[i] ==> calls[j]
  }

  predicate NeverTakenBack(sent: seq<Sent>) {
    forall i, j :: 0 <= i < j < |sent| && sent[i].reply == FullSuccess ==> sent[j].reply == FullSuccess
  }

  lemma CallsOfRest(acts: seq<Act>)
    requires acts != []
    ensures acts[0].Change? ==> Calls(acts) == Calls(acts[1..])
    ensures acts[0].Finish? ==> Calls(acts)[0] == acts[0].successful && Calls(acts)[1..] == Calls(acts[1..])
  {}

  /** Once only full success is asked for, or is due anyway, nothing else is sent. */
  lemma {:induction false} OnlySuccess(s: Conclusion, acts: seq<Act>)
    requires Sticky(s, acts)
    requires false !in Calls(acts) || (s.authenticated && (s.shell || s.targetAuthenticated))
    ensures forall k :: 0 <= k < |Replies(s, acts)| ==> Replies(s, acts)[k].reply == FullSuccess
    decreases |acts|
  {
    if acts != [] {
      CallsOfRest(acts);
      match acts[0]
      case Change(to) => OnlySuccess(to.(partialSent := s.partialSent, finishSent := s.finishSent), acts[1..]);
      case Finish(successful) =>
        var (next, replies) := Concluded(s, successful);
        assert replies == [] || replies == [FullSuccess];
        OnlySuccess(next, acts[1..]);
        assert Replies(s, acts) == (if replies == [] then [] else [Sent(s, successful, FullSuccess)]) + Replies(next, acts[1..]);
    }
  }

  lemma {:induction false} OrderedIsSafe(s: Conclusion, acts: seq<Act>)
    requires Sticky(s, acts) && Ordered(Calls(acts))
    ensures NeverTakenBack(Replies(s, acts))
    decreases |acts|
  {
    if acts != [] {
      CallsOfRest(acts);
      match acts[0]
      case Change(to) => OrderedIsSafe(to.(partialSent := s.partialSent, finishSent := s.finishSent), acts[1..]);
      case Finish(successful) =>
        var (next, replies) := Concluded(s, successful);
        var calls := Calls(acts);
        assert Ordered(calls[1..]);
        OrderedIsSafe(next, acts[1..]);
        if replies == [FullSuccess] {
          assert successful ==> false !in calls[1..];
          OnlySuccess(next, acts[1..]);
        }
    }
  }

  function Finishes(calls: seq<bool>): (acts: seq<Act>)
    ensures |acts| == |calls| && forall k :: 0 <= k < |calls| ==> acts[k] == Finish(calls[k])
  {
    seq(|calls|, k requires 0 <= k < |calls| => Finish(calls[k]))
  }

  /** A client in the middle of an exchange, which ends before the last call. */
  ghost function Waiting(finishSent: bool): Conclusion {
    Conclusion({Interactive}, false, true, false, true, false, finishSent)
  }

  ghost function Closing(finishSent: bool): Act {
    Change(Waiting(finishSent).(message := false))
  }

  ghost function Interrupted(calls: seq<bool>, rest: seq<bool>): (acts: seq<Act>)
    ensures |acts| == |calls| + 1 + |rest|
  {
    Finishes(calls) + [Closing(false)] + Finishes(rest)
  }

  /** If the last calls begin with an unsuccessful one it sends a partial success, even where a call
      before had sent full success. */
  lemma {:induction false} SuccessThenPartial(calls: seq<bool>, rest: seq<bool>, finishSent: bool)
    requires rest != [] && !rest[0]
    ensures var acts, s := Interrupted(calls, rest), Waiting(finishSent);
            && Sticky(s, acts) && Calls(acts) == calls + rest
            && (true in calls && !finishSent ==> !NeverTakenBack(Replies(s, acts)))
            && exists k :: 0 <= k < |Replies(s, acts)| && Replies(s, acts)[k].reply == PartialSuccess
    decreases |calls|
  {
    hide Concluded, Waiting, Closing, Replies, Sticky, Calls;
    if calls == [] {
      PartialIsSent(rest, finishSent);
      assert Finishes([]) == [] && calls + rest == rest;
      assert Interrupted(calls, rest) == [Closing(false)] + Finishes(rest);
    } else {
      var s, acts := Waiting(finishSent), Interrupted(calls, rest);
      var sent := if calls[0] && !finishSent then [Sent(s, calls[0], FullSuccess)] else [];
      var later := Replies(Waiting(finishSent || calls[0]), acts[1..]);
      assert acts[0] == Finish(calls[0]) && acts[1..] == Interrupted(calls[1..], rest);
      WaitingStep(acts, calls[0], finishSent);
      SuccessThenPartial(calls[1..], rest, finishSent || calls[0]);
      assert calls + rest == [calls[0]] + (calls[1..] + rest);
      var k :| 0 <= k < |later| && later[k].reply == PartialSuccess;
      assert (sent + later)[k + |sent|] == later[k];
      if sent != [] {
        assert (sent + later)[0].reply == FullSuccess && (sent + later)[k + 1].reply == PartialSuccess;
      } else {
        assert sent + later == later;
      }
    }
  }

  lemma WaitingStep(acts: seq<Act>, successful: bool, finishSent: bool)
    requires acts != [] && acts[0] == Finish(successful)
    ensures var s, next := Waiting(finishSent), Waiting(finishSent || successful);
            && (Sticky(s, acts) <==> Sticky(next, acts[1..]))
            && Calls(acts) == [successful] + Calls(acts[1..])
            && Replies(s, acts) == (if successful && !finishSent then [Sent(s, successful, FullSuccess)] else [])
                                   + Replies(next, acts[1..])
  {
    WaitingAnswers(successful, finishSent);
  }

  lemma WaitingAnswers(successful: bool, finishSent: bool)
    ensures Concluded(Waiting(finishSent), successful)
            == (Waiting(finishSent || successful), if successful && !finishSent then [FullSuccess] else [])
  {}

  lemma PartialIsSent(rest: seq<bool>, finishSent: bool)
    requires rest != [] && !rest[0]
    ensures var acts, s := [Closing(false)] + Finishes(rest), Waiting(finishSent);
            && Sticky(s, acts) && Calls(acts) == rest
            && |Replies(s, acts)| > 0 && Replies(s, acts)[0].reply == PartialSuccess
  {
    var acts, s := [Closing(false)] + Finishes(rest), Waiting(finishSent);
    assert acts[0] == Closing(false) && acts[1..] == Finishes(rest);
    var closed := s.(message := false);
    assert Finishes(rest)[0] == Finish(false);
    assert closed.allowed * {Interactive, Password} == closed.allowed;
    assert Concluded(closed, false) == (closed.(partialSent := true), [PartialSuccess]);
    assert Replies(s, acts) == Replies(closed, Finishes(rest));
    CallsOfFinishes(rest);
    UnchangedIsSticky(closed, rest);
  }

  lemma {:induction false} CallsOfFinishes(calls: seq<bool>)
    ensures Calls(Finishes(calls)) == calls
  {
    if calls != [] {
      assert Finishes(calls)[1..] == Finishes(calls[1..]);
      CallsOfFinishes(calls[1..]);
    }
  }

  lemma {:induction false} UnchangedIsSticky(s: Conclusion, calls: seq<bool>)
    ensures Sticky(s, Finishes(calls))
    decreases |calls|
  {
    if calls != [] {
      assert Finishes(calls)[1..] == Finishes(calls[1..]);
      UnchangedIsSticky(Concluded(s, calls[0]).0, calls[1..]);
    }
  }

  /** The orders of calls after which a client told of full success is never told less, whatever the
      session does between them: those in which no unsuccessful call follows a successful one. */
  lemma SafeIffOrdered(calls: seq<bool>)
    ensures Ordered(calls) <==>
            forall s, acts {:trigger Replies(s, acts)} :: Sticky(s, acts) && Calls(acts) == calls ==> NeverTakenBack(Replies(s, acts))
  {
    if Ordered(calls) {
      forall s, acts | Sticky(s, acts) && Calls(acts) == calls
        ensures NeverTakenBack(Replies(s, acts))
      {
        OrderedIsSafe(s, acts);
      }
    } else {
      var i, j :| 0 <= i < j < |calls| && calls[i] && !calls[j];
      assert calls[..j] + calls[j..] == calls && calls[..j][i];
      SuccessThenPartial(calls[..j], calls[j..], false);
    }
  }

  // ----- The engine ----------------------------------------------------------------

  class Engine {
    var algorithms: bool            // a list of public key algorithms is configured
    var allowed: set<Kind>
    var required: set<Kind>
    var succeeded: set<Kind>
    var attempts: nat
    var failures: int
    var loaded: bool                // the session context is here
    var mode: Option<Mode>
    var authenticated: bool
    var targetAuthenticated: bool
    var message: bool               // an open keyboard-interactive exchange
    var partialSent: bool
    var finishSent: bool
    var tooMany: bool

    /** The client counts as authenticated exactly when something succeeded and nothing required is
        missing. Without a session context, as for remote commands, nothing is required. */
    ghost predicate Valid()
      reads this
    {
      && (authenticated <==> succeeded != {} && required <= succeeded)
      && (!loaded ==> required == {})
      && (mode.None? || mode == Some(ChefRemote) ==> !loaded)
      && (mode == Some(Shell) ==> required == {})
      && Password !in required && Password !in succeeded
    }

    /** Every required method has succeeded or is still allowed. */
    predicate Owed()
      reads this`required, this`succeeded, this`allowed
    {
      required <= succeeded + allowed
    }

    constructor (algorithms: bool)
      ensures Valid() && Owed() && !authenticated && succeeded == {} && mode.None? && !loaded && allowed == {}
      ensures !partialSent && !finishSent
    {
      this.algorithms := algorithms;
      allowed, required, succeeded := {}, {}, {};
      attempts, failures := 0, -1;
      loaded, mode, authenticated, targetAuthenticated := false, None, false, false;
      message, partialSent, finishSent, tooMany := false, false, false, false;
    }

    method AddPreferred(name: string) returns (known: bool)
      modifies this`allowed
      ensures allowed == old(allowed) + PreferredKinds(name)
      ensures known <==> PreferredKinds(name) != {}
    {
      known := true;
      if name == "publickey" {
        allowed := allowed + {Publickey};
      } else if name == "password" {
        allowed := allowed + {Password};
      } else if name == "keyboard-interactive" {
        allowed := allowed + {Interactive};
      } else if name == "interactive" {
        allowed := allowed + {Password};
        allowed := allowed + {Interactive};
      } else if name == "openid-connect" {
        allowed := allowed + {OpenId};
      } else {
        known := false;
      }
    }

    method AddRequired(name: string) returns (known: bool)
      modifies this`required
      ensures required == old(required) + RequiredKinds(name)
      ensures known <==> RequiredKinds(name) != {}
    {
      known := true;
      if name == "publickey" {
        required := required + {Publickey};
      } else if name == "interactive" {
        required := required + {Interactive};
      } else if name == "openid-connect" {
        required := required + {OpenId};
      } else {
        known := false;
      }
    }

    /** The context is taken once; whatever is required is then allowed. In shell mode its lists are not
        read, so nothing is required. */
    method LoadContext(context: Context)
      requires Valid() && !authenticated && mode.Some? && mode != Some(ChefRemote)
      modifies this`allowed, this`required, this`loaded
      ensures Valid() && loaded
      ensures old(loaded) ==> allowed == old(allowed) && required == old(required)
      ensures !old(loaded) && mode != Some(Shell) ==>
                allowed == AllowedAfter(old(allowed), context) && required == RequiredOf(context)
      ensures mode == Some(Shell) ==> allowed == old(allowed) && required == {}
      ensures !old(loaded) || old(Owed()) ==> Owed()
    {
      if loaded {
        return;
      }
      if mode == Some(Shell) {
        loaded := true;
        return;
      }
      if context.preferred.Some? {
        var names, i := context.preferred.value, 0;
        allowed := {};
        while i < |names|
          invariant 0 <= i <= |names| && allowed == AllPreferred(names[..i]) && required == {}
        {
          var known := AddPreferred(names[i]);
          PreferredAppend(names[..i], names[i]);
          assert names[..i + 1] == names[..i] + [names[i]];
          i := i + 1;
        }
        assert names[..i] == names;
      }
      if context.required.Some? {
        var names, i := context.required.value, 0;
        if |names| > 0 {
          allowed := {};
        }
        while i < |names|
          invariant 0 <= i <= |names| && required == AllRequired(names[..i])
          invariant |names| > 0 ==> allowed == AllPreferred(names[..i])
          invariant |names| == 0 ==> allowed == AllowedAfter(old(allowed), context)
        {
          var known := AddPreferred(names[i]);
          known := AddRequired(names[i]);
          PreferredAppend(names[..i], names[i]);
          assert names[..i + 1] == names[..i] + [names[i]];
          i := i + 1;
        }
        assert names[..i] == names;
      }
      loaded := true;
      RequiredIsAllowed(old(allowed), context);
      NoPasswordRequired(if context.required.Some? then context.required.value else []);
    }

    // ----- The handlers ----------------------------------------------------------------

    /** What every handler keeps: evidence only adds to the succeeded set, which may now cover the
        required one, and the allowed set only shrinks. */
    twostate predicate Progress(gained: set<Kind>)
      reads this
    {
      succeeded == old(succeeded) + gained && allowed <= old(allowed) && required == old(required)
    }

    /** A password that Chef accepted, refused or could not judge. */
    method Judge(verdict: Verdict) returns (resp: Response)
      modifies this`allowed, this`succeeded
      ensures Progress(if verdict == Accept then {Interactive} else {})
      ensures resp == match verdict case Accept => Success case Deny => Failed case Fault => Error
      ensures allowed == if verdict == Deny then old(allowed) else old(allowed) - {Password, Interactive}
    {
      match verdict {
        case Accept =>
          resp := Success;
          succeeded := succeeded + {Interactive};
          allowed := allowed - {Password} - {Interactive};
        case Deny =>
          resp := Failed;
        case Fault =>
          resp := Error;
          allowed := allowed - {Password} - {Interactive};
      }
    }

    method HandlePassword(password: Option<string>, verdict: Verdict) returns (resp: Response)
      requires Valid()
      modifies this`allowed, this`succeeded, this`attempts
      ensures Progress(if Answers(TryPassword(password, verdict), Accept) then {Interactive} else {})
      ensures resp == Success <==> Answers(TryPassword(password, verdict), Accept)
      ensures allowed == old(allowed) - Withdrawn(TryPassword(password, verdict))
      ensures resp != PkOk && resp != Info
      ensures old(Owed()) ==>
                (Owed() <==> !(Answers(TryPassword(password, verdict), Fault) && Interactive in required && Interactive !in succeeded))
    {
      attempts := attempts + 1;
      if password.Some? && |password.value| > 0 {
        resp := Judge(verdict);
      } else {
        resp := Failed;
        allowed := allowed - {Password};
      }
    }

    /** Gone: an answer of the wrong shape ends the session. */
    method HandleInteractive(isResponse: bool, answers: nat, answer: Option<string>, verdict: Verdict)
      returns (resp: Response, gone: bool)
      requires Valid()
      modifies this`allowed, this`succeeded, this`attempts, this`message
      ensures Progress(if Answers(TryInteractive(isResponse, answers, answer, verdict), Accept) then {Interactive} else {})
      ensures gone <==> isResponse && (answers != 1 || answer.None?)
      ensures allowed == old(allowed) - Withdrawn(TryInteractive(isResponse, answers, answer, verdict))
      ensures !gone ==> (resp == Success <==> Answers(TryInteractive(isResponse, answers, answer, verdict), Accept))
      ensures resp == Info <==> !isResponse
      ensures message == (old(message) || (isResponse && !gone))
      ensures old(Owed()) ==>
                (Owed() <==> !(Answers(TryInteractive(isResponse, answers, answer, verdict), Fault)
                               && Interactive in required && Interactive !in succeeded))
    {
      resp, gone := Error, false;
      if !isResponse {
        resp := Info;
      } else {
        attempts := attempts + 1;
        if answers == 1 && answer.Some? {
          resp := Judge(verdict);
          message := true;
        } else {
          gone := true;
        }
      }
    }

    /** Gone: a key offered without a signature algorithm where algorithms are restricted. The remote
        user's offer lifts the restriction. */
    method HandlePublickey(key: Key) returns (resp: Response, gone: bool)
      modifies this`allowed, this`succeeded, this`attempts, this`algorithms
      ensures Progress(if key == Signed(true) then {Publickey} else {})
      ensures resp == Success <==> key == Signed(true)
      ensures algorithms == (old(algorithms) && !(key.Unsigned? && mode == Some(ChefRemote)))
      ensures resp == PkOk <==> key.Unsigned? && key.known && (algorithms ==> key.algorithm && key.allowed)
      ensures gone <==> key.Unsigned? && algorithms && !key.algorithm
      ensures allowed == old(allowed) - Withdrawn(TryPublickey(key))
      ensures resp != Info
      ensures old(Owed()) ==> Owed()
    {
      resp, gone := Error, false;
      if key != NoKey {
        attempts := attempts + 1;
        match key {
          case Unsigned(algorithm, listed, known) =>
            if mode == Some(ChefRemote) {
              algorithms := false;
            }
            if algorithms && algorithm && !listed {
              resp := Failed;
            } else if algorithms && !algorithm {
              gone := true;
            } else if known {
              resp := PkOk;
            } else {
              resp := Failed;
            }
          case Signed(known) =>
            if known {
              succeeded := succeeded + {Publickey};
              allowed := allowed - {Publickey};
              resp := Success;
            } else {
              resp := Failed;
            }
          case WrongSignature => resp := Failed;
          case _ =>
        }
      }
    }

    /** The reply to one method's result: the client is authenticated at the first success that leaves
        nothing required open, and is told of a partial success otherwise. */
    method ProcessResponse(resp: Response) returns (replies: seq<Reply>)
      requires resp == Success ==> succeeded != {} && Password !in succeeded
      requires resp != Success ==> (authenticated <==> succeeded != {} && required <= succeeded)
      requires authenticated ==> required <= succeeded
      modifies this`authenticated, this`failures
      ensures authenticated <==> succeeded != {} && required <= succeeded
      ensures replies == if resp == Success && !(required <= succeeded) then [PartialSuccess] else []
    {
      replies := [];
      match resp {
        case Success =>
          if succeeded != {} {
            if succeeded * required == required {
              authenticated := true;
            } else {
              replies := [PartialSuccess];
            }
          }
        case PkOk =>
        case Info =>
        case _ => failures := failures + 1;
      }
    }

    // ----- The loop --------------------------------------------------------------------

    /** One attempt, handled and answered; gone means that the handler ended the session. */
    method HandleAttempt(attempt: Attempt) returns (replies: seq<Reply>, gone: bool)
      requires Valid() && !authenticated
      modifies this`allowed, this`succeeded, this`attempts, this`message, this`authenticated, this`failures,
               this`algorithms
      ensures Valid()
      ensures Progress(Gained(attempt))
      ensures old(Owed()) && !Answers(attempt, Fault) ==> Owed()
      ensures gone <==> Breaks(attempt, algorithms)
      ensures gone ==> !authenticated
      ensures allowed == old(allowed) - Withdrawn(attempt)
      ensures mode != Some(ChefRemote) ==> algorithms == old(algorithms)
      ensures mode == Some(ChefRemote) && attempt.TryPublickey? && attempt.key.Unsigned? ==> !algorithms
      ensures replies == if Gained(attempt) != {} && !authenticated then [PartialSuccess] else []
    {
      var resp;
      replies, gone := [], false;
      match attempt {
        case Nothing => resp := Failed;
        case TryPassword(password, verdict) => resp := HandlePassword(password, verdict);
        case TryInteractive(isResponse, answers, answer, verdict) =>
          resp, gone := HandleInteractive(isResponse, answers, answer, verdict);
        case TryPublickey(key) => resp, gone := HandlePublickey(key);
      }
      if !gone {
        replies := ProcessResponse(resp);
      }
    }

    /** Remote commands: only public keys, and nothing is required. */
    method HandleRemote(attempt: Attempt) returns (replies: seq<Reply>, gone: bool)
      requires Valid() && !authenticated && mode == Some(ChefRemote)
      modifies this
      ensures Valid() && Owed() && !gone
      ensures succeeded == old(succeeded) + GainedIn(mode, attempt) && required == old(required)
      ensures allowed == {Publickey} - GainedIn(mode, attempt)
      ensures unchanged(`partialSent, `finishSent, `targetAuthenticated, `mode, `loaded)
    {
      message := false;
      allowed := {Publickey};
      replies, gone := HandleAttempt(if attempt.TryPublickey? then attempt else Nothing);
    }

    /** The context, unless it is here already. */
    method TakeContext(context: Option<Context>)
      requires Valid() && !authenticated && mode.Some? && mode != Some(ChefRemote)
      modifies this`allowed, this`required, this`loaded
      ensures Valid() && (loaded <==> old(loaded) || context.Some?)
      ensures required == if old(loaded) || !loaded || mode == Some(Shell) then old(required) else RequiredOf(context.value)
      ensures old(Owed()) ==> Owed()
    {
      hide AllowedAfter, RequiredOf;
      if !loaded && context.Some? {
        LoadContext(context.value);
      }
    }

    /** All others need their session context first. */
    method HandleUser(request: Message) returns (replies: seq<Reply>, gone: bool)
      requires request.Request? && Valid() && !authenticated && mode.Some? && mode != Some(ChefRemote)
      modifies this
      ensures Valid() && algorithms == old(algorithms)
      ensures gone <==> !request.proxyOk || !loaded || Breaks(request.attempt, algorithms) || tooMany
                        || (!authenticated && allowed == {})
      ensures loaded <==> old(loaded) || (request.proxyOk && request.context.Some?)
      ensures tooMany == (old(tooMany) || (request.proxyOk && loaded && request.tooMany))
      ensures succeeded == old(succeeded) + if request.proxyOk && loaded then Gained(request.attempt) else {}
      ensures required == if old(loaded) || !loaded || mode == Some(Shell) then old(required) else RequiredOf(request.context.value)
      ensures old(Owed()) && !Answers(request.attempt, Fault) ==> Owed()
      ensures unchanged(`partialSent, `finishSent, `targetAuthenticated, `mode)
    {
      hide Answers, Gained, AllowedAfter, RequiredOf, Withdrawn, Breaks, Engine.Owed;
      replies, gone := [], true;
      if !request.proxyOk {
        return;
      }
      TakeContext(request.context);
      if !loaded {
        return;
      }
      message := false;
      replies, gone := HandleAttempt(request.attempt);
      tooMany := tooMany || request.tooMany;
      gone := gone || tooMany || (!authenticated && allowed == {});
    }

    /** One authentication request; gone means that the session ended with it: for a login that is refused
        or, outside remote commands, a proxy that is not reached, a context that does not come, an attempt
        that breaks, too many failures, or nothing left to try. */
    method HandleRequest(request: Message) returns (replies: seq<Reply>, gone: bool)
      requires request.Request? && Valid() && !authenticated
      modifies this
      ensures Valid() && (mode != Some(ChefRemote) ==> algorithms == old(algorithms))
      ensures mode == if request.loginOk && old(mode).None? then Some(request.mode) else old(mode)
      ensures gone <==> !request.loginOk
                        || (mode != Some(ChefRemote)
                            && (!request.proxyOk || !loaded || Breaks(request.attempt, algorithms) || tooMany
                                || (!authenticated && allowed == {})))
      ensures loaded <==> old(loaded)
                          || (request.loginOk && mode != Some(ChefRemote) && request.proxyOk && request.context.Some?)
      ensures request.loginOk && mode != Some(ChefRemote) ==>
                tooMany == (old(tooMany) || (request.proxyOk && loaded && request.tooMany))
      ensures succeeded == old(succeeded)
                           + if request.loginOk && (mode == Some(ChefRemote) || (request.proxyOk && loaded))
                             then GainedIn(mode, request.attempt) else {}
      ensures required == if old(loaded) || !loaded || mode == Some(Shell) then old(required) else RequiredOf(request.context.value)
      ensures old(Owed()) && !Answers(request.attempt, Fault) ==> Owed()
      ensures unchanged(`partialSent, `finishSent, `targetAuthenticated)
    {
      hide Answers, Gained, Breaks, RequiredOf, Withdrawn;
      if !request.loginOk {
        return [], true;
      }
      if mode.None? {
        mode := Some(request.mode);
      }
      if mode == Some(ChefRemote) {
        replies, gone := HandleRemote(request.attempt);
      } else {
        replies, gone := HandleUser(request);
      }
    }

    /** The first `n` turns passed, mode and required methods are those of the first request among them,
        and it brought its context. */
    ghost predicate Admitted(turns: seq<Turn>, n: nat, restricted: bool)
      reads this
      requires n <= |turns|
    {
      && AllPass(turns, n, mode, restricted) && SetUp(turns, n, mode, required) && succeeded == Earned(turns, n, mode)
      && (Quiet(turns, n) || mode == Some(ChefRemote) || loaded)
      && (mode != Some(ChefRemote) ==> algorithms == restricted && !tooMany)
    }

    /** The client is in: by the last turn handled, or by the signal of openid-connect that came next. */
    ghost predicate EntersBy(turns: seq<Turn>, n: nat, restricted: bool)
      reads this
    {
      && authenticated && n <= |turns|
      && AllPass(turns, n, mode, restricted) && SetUp(turns, n, mode, required)
      && if OpenId in succeeded then
           n < |turns| && !turns[n].expired && turns[n].oidcSignal && succeeded == Earned(turns, n, mode) + {OpenId}
         else n > 0 && turns[n - 1].message.Request? && succeeded == Earned(turns, n, mode)
    }

    lemma Parts(turns: seq<Turn>, n: nat, restricted: bool)
      requires n <= |turns| && Admitted(turns, n, restricted)
      ensures AllPass(turns, n, mode, restricted) && SetUp(turns, n, mode, required) && succeeded == Earned(turns, n, mode)
      ensures OpenId !in Earned(turns, n, mode)
    {
      NoSignalEarned(turns, n, mode);
    }

    lemma NoTurns(turns: seq<Turn>)
      requires Valid() && mode.None? && !loaded && succeeded == {} && !tooMany
      ensures Admitted(turns, 0, algorithms)
    {}

    lemma StillAdmitted(turns: seq<Turn>, n: nat, restricted: bool)
      requires n < |turns| && Admitted(turns, n, restricted)
      requires !turns[n].expired && turns[n].message != Silence(false) && !turns[n].message.Request?
      ensures Admitted(turns, n + 1, restricted)
    {
      hide SetUp, SetUpBy, GainedIn;
      SetUpStays(turns, n, mode, required);
      assert Earned(turns, n + 1, mode) == Earned(turns, n, mode) + {} == Earned(turns, n, mode);
      assert Passes(turns[n], mode, restricted);
      assert Quiet(turns, n) ==> Quiet(turns, n + 1);
    }

    /** A turn with a request. */
    method HandleTurn(turns: seq<Turn>, n: nat, ghost restricted: bool) returns (gone: bool)
      requires n < |turns| && turns[n].message.Request? && !turns[n].expired
      requires Valid() && !authenticated && Admitted(turns, n, restricted)
      modifies this
      ensures Valid() && AllPass(turns, n, mode, restricted)
      ensures succeeded == old(succeeded) || succeeded == old(succeeded) + Gained(turns[n].message.attempt)
      ensures old(Owed()) && !Faulty(turns[n]) ==> Owed()
      ensures if gone then Failing(turns[n], restricted) || (!authenticated && allowed == {})
              else Admitted(turns, n + 1, restricted)
    {
      hide Answers, Gained, Breaks, RequiredOf;
      ghost var before := mode;
      var replies;
      replies, gone := HandleRequest(turns[n].message);
      if before.None? {
        QuietEarnsNothing(turns, n, before);
        QuietEarnsNothing(turns, n, mode);
        if !gone {
          SetUpNow(turns, n, mode, required);
        }
      } else if !gone {
        SetUpStays(turns, n, mode, required);
      }
    }

    /** The loop. The messages of the first `handled` turns were handled; openid-connect, when nothing else
        is left, comes before the message of its turn. True is returned only when all these turns passed
        and what they earned includes everything that the first request's context requires; without an
        end all turns passed and did not earn it. */
    method Dispatch(turns: seq<Turn>) returns (out: Outcome, ghost last: nat, ghost handled: nat)
      requires Valid() && Owed() && !authenticated && succeeded == {} && !loaded && mode.None? && !tooMany
      modifies this
      ensures Valid() && Proven(turns, succeeded)
      ensures out.Returned? ==> out.ok == authenticated
      ensures authenticated ==> Proven(turns, required) && out != Pending
      ensures Faultless(turns) ==> Owed()
      ensures Faultless(turns) && out == Returned(false) && old(allowed) != {} ==>
                last < |turns| && (turns[last].expired || turns[last].message == Silence(false))
      ensures out == Returned(true) ==> EntersBy(turns, handled, old(algorithms))
      ensures out == Pending ==> Admitted(turns, |turns|, old(algorithms)) && !authenticated
      ensures !authenticated && out != Pending && old(allowed) != {} ==>
                last < |turns| && AllPass(turns, last, mode, old(algorithms)) && if out == Exited then
                  Failing(turns[last], old(algorithms)) || allowed == {} || (allowed == {OpenId} && !turns[last].oidcSignal)
                else turns[last].expired || turns[last].message == Silence(false) || turns[last].oidcSignal
    {
      hide Admitted, Earned, SetUp, Passes, Failing, Proven, Genuine, Gained, Faulty;
      out, last, handled := Pending, 0, 0;
      NothingProven(turns);
      NothingProven(turns[..0]);
      if allowed == {} {
        return Returned(false), 0, 0;
      }
      NoTurns(turns);
      var i := 0;
      while i < |turns|
        invariant 0 <= i <= |turns|
        invariant Valid() && !authenticated && Proven(turns[..i], succeeded)
        invariant Faultless(turns) ==> Owed()
        invariant Admitted(turns, i, old(algorithms))
      {
        last := i;
        var turn := turns[i];
        StillProven(turns, i, succeeded);
        Parts(turns, i, old(algorithms));
        if turn.expired {
          return Returned(false), last, i;
        }
        if allowed == {OpenId} {
          if !turn.oidcSignal {
            return Exited, last, i;
          }
          SignalProves(turns, i, succeeded);
          succeeded := succeeded + {OpenId};
          var replies := ProcessResponse(Success);
          if authenticated {
            ProvenSubset(turns, succeeded, required);
          }
          return Returned(authenticated), last, i;
        }
        if turn.message == Silence(false) {
          return Returned(false), last, i;
        }
        if turn.message.Request? {
          AttemptProves(turns, i, succeeded);
          var gone := HandleTurn(turns, i, old(algorithms));
          if authenticated {
            ProvenSubset(turns, succeeded, required);
          }
          if gone {
            return Exited, last, i;
          }
          if authenticated {
            Parts(turns, i + 1, old(algorithms));
            return Returned(true), last, i + 1;
          }
        } else {
          StillAdmitted(turns, i, old(algorithms));
        }
        i := i + 1;
      }
      handled := i;
      assert turns[..i] == turns;
    }

    /** Without any configured method, the three of the protocol are allowed. */
    method Start(turns: seq<Turn>) returns (ok: bool, ghost handled: nat)
      requires Valid() && Owed() && !authenticated && succeeded == {} && !loaded && mode.None? && !tooMany
      modifies this
      ensures Valid() && Proven(turns, succeeded)
      ensures ok ==> authenticated && succeeded != {} && required <= succeeded && Proven(turns, required)
      ensures ok ==> EntersBy(turns, handled, old(algorithms))
      ensures mode == Some(Shell) ==> required == {}
      ensures Faultless(turns) ==> Owed()
    {
      if allowed == {} {
        allowed := {Password, Publickey, Interactive};
      }
      var out;
      ghost var last;
      out, last, handled := Dispatch(turns);
      return out == Returned(true), handled;
    }

    // ----- The conclusion --------------------------------------------------------------

    function View(): Conclusion
      reads this
    {
      Conclusion(allowed, mode == Some(Shell), authenticated, targetAuthenticated, message, partialSent, finishSent)
    }

    method Finish(successful: bool) returns (replies: seq<Reply>)
      modifies this`allowed, this`partialSent, this`finishSent
      ensures (View(), replies) == Concluded(old(View()), successful)
    {
      replies := [];
      var now := successful;
      if !now {
        if authenticated {
          if mode == Some(Shell) || targetAuthenticated {
            now := true;
          } else {
            if message {
              return;
            }
            if !partialSent {
              if Interactive in allowed || Password in allowed {
                allowed := allowed * {Interactive, Password};
                replies := [PartialSuccess];
                partialSent := true;
              } else {
                replies := [Disconnect];
              }
            }
            return;
          }
        }
      }
      if now {
        if !finishSent {
          replies := [FullSuccess];
          finishSent := true;
        }
      }
    }
  }

  /** What an attempt adds to the succeeded methods. */
  function Gained(attempt: Attempt): set<Kind> {
    if Answers(attempt, Accept) then {Interactive}
    else if attempt == TryPublickey(Signed(true)) then {Publickey}
    else {}
  }

  /** The methods an attempt leaves no longer allowed. */
  function Withdrawn(attempt: Attempt): set<Kind> {
    match attempt
    case TryPassword(password, verdict) =>
      if password.None? || password.value == "" then {Password} else if verdict == Deny then {} else {Password, Interactive}
    case TryInteractive(isResponse, answers, answer, verdict) =>
      if isResponse && answers == 1 && answer.Some? && verdict != Deny then {Password, Interactive} else {}
    case TryPublickey(key) => if key == Signed(true) then {Publickey} else {}
    case Nothing => {}
  }

  /** An attempt that ends the session: an answer of the wrong shape, or an offer without algorithm where
      algorithms are restricted. */
  predicate Breaks(attempt: Attempt, restricted: bool) {
    match attempt
    case TryInteractive(isResponse, answers, answer, _) => isResponse && (answers != 1 || answer.None?)
    case TryPublickey(key) => key.Unsigned? && restricted && !key.algorithm
    case _ => false
  }

  /** Remote commands take public keys only. */
  function GainedIn(mode: Option<Mode>, attempt: Attempt): set<Kind> {
    if mode == Some(ChefRemote) && !attempt.TryPublickey? then {} else Gained(attempt)
  }

  /** A turn after which the loop may go on: in time, connected, with a login that is accepted and, outside
      remote commands, a proxy that is reached, no attempt that breaks, and not too many failures. */
  predicate Passes(turn: Turn, mode: Option<Mode>, restricted: bool) {
    && !turn.expired && turn.message != Silence(false)
    && (turn.message.Request? ==>
          turn.message.loginOk
          && (mode == Some(ChefRemote)
              || (turn.message.proxyOk && !turn.message.tooMany && !Breaks(turn.message.attempt, restricted))))
  }

  /** A request with which the session ends. */
  predicate Failing(turn: Turn, restricted: bool) {
    && turn.message.Request?
    && var r := turn.message;
       !r.loginOk || !r.proxyOk || r.context.None? || r.tooMany || Breaks(r.attempt, restricted)
  }

  ghost predicate AllPass(turns: seq<Turn>, n: nat, mode: Option<Mode>, restricted: bool)
    requires n <= |turns|
  {
    forall i :: 0 <= i < n ==> Passes(turns[i], mode, restricted)
  }

  /** What the attempts of a run add up to. */
  function Earned(turns: seq<Turn>, n: nat, mode: Option<Mode>): set<Kind>
    requires n <= |turns|
  {
    if n == 0 then {}
    else Earned(turns, n - 1, mode)
         + if turns[n - 1].message.Request? then GainedIn(mode, turns[n - 1].message.attempt) else {}
  }

  lemma {:induction false} NoSignalEarned(turns: seq<Turn>, n: nat, mode: Option<Mode>)
    requires n <= |turns|
    ensures OpenId !in Earned(turns, n, mode)
  {
    if n > 0 {
      NoSignalEarned(turns, n - 1, mode);
    }
  }

  ghost predicate Quiet(turns: seq<Turn>, n: nat)
    requires n <= |turns|
  {
    forall i :: 0 <= i < n ==> !turns[i].message.Request?
  }

  lemma {:induction false} QuietEarnsNothing(turns: seq<Turn>, n: nat, mode: Option<Mode>)
    requires n <= |turns| && Quiet(turns, n)
    ensures Earned(turns, n, mode) == {}
  {
    if n > 0 {
      QuietEarnsNothing(turns, n - 1, mode);
    }
  }

  /** Mode and required methods are those of the first request, which must bring its context. */
  ghost predicate SetUp(turns: seq<Turn>, n: nat, mode: Option<Mode>, required: set<Kind>)
    requires n <= |turns|
  {
    if Quiet(turns, n) then mode.None? && required == {}
    else exists f :: 0 <= f < n && Quiet(turns, f) && turns[f].message.Request? && SetUpBy(turns[f].message, mode, required)
  }

  predicate SetUpBy(first: Message, mode: Option<Mode>, required: set<Kind>)
    requires first.Request?
  {
    && mode == Some(first.mode)
    && if first.mode == ChefRemote || first.mode == Shell then required == {}
       else first.context.Some? && required == RequiredOf(first.context.value)
  }

  lemma SetUpStays(turns: seq<Turn>, n: nat, mode: Option<Mode>, required: set<Kind>)
    requires n < |turns| && SetUp(turns, n, mode, required)
    requires turns[n].message.Request? ==> !Quiet(turns, n)
    ensures SetUp(turns, n + 1, mode, required)
  {}

  lemma SetUpNow(turns: seq<Turn>, n: nat, mode: Option<Mode>, required: set<Kind>)
    requires n < |turns| && Quiet(turns, n) && turns[n].message.Request? && SetUpBy(turns[n].message, mode, required)
    ensures SetUp(turns, n + 1, mode, required)
  {}

  ghost predicate Faultless(turns: seq<Turn>) {
    forall i :: 0 <= i < |turns| ==> !Faulty(turns[i])
  }

  lemma StillProven(turns: seq<Turn>, i: nat, kinds: set<Kind>)
    requires i < |turns| && Proven(turns[..i], kinds)
    ensures Proven(turns[..i + 1], kinds) && Proven(turns, kinds)
  {
    ProvenStep(turns, i, kinds, {});
    assert kinds + {} == kinds;
  }

  lemma SignalProves(turns: seq<Turn>, i: nat, kinds: set<Kind>)
    requires i < |turns| && Proven(turns[..i], kinds) && turns[i].oidcSignal
    ensures Proven(turns, kinds + {OpenId})
  {
    ProvenStep(turns, i, kinds, {OpenId});
  }

  lemma AttemptProves(turns: seq<Turn>, i: nat, kinds: set<Kind>)
    requires i < |turns| && Proven(turns[..i], kinds) && turns[i].message.Request?
    ensures Proven(turns[..i + 1], kinds + Gained(turns[i].message.attempt))
    ensures Proven(turns, kinds + Gained(turns[i].message.attempt))
  {
    ProvenStep(turns, i, kinds, Gained(turns[i].message.attempt));
  }

  lemma ProvenSubset(turns: seq<Turn>, more: set<Kind>, kinds: set<Kind>)
    requires Proven(turns, more) && kinds <= more
    ensures Proven(turns, kinds)
  {}

  lemma NothingProven(turns: seq<Turn>)
    ensures Proven(turns, {})
  {}

  lemma ProvenStep(turns: seq<Turn>, i: nat, kinds: set<Kind>, gained: set<Kind>)
    requires i < |turns| && Proven(turns[..i], kinds)
    requires forall kind :: kind in gained ==> Genuine(turns[i], kind)
    ensures Proven(turns[..i + 1], kinds + gained) && Proven(turns, kinds + gained)
    ensures Proven(turns[..i + 1], kinds)
  {
    forall kind | kind in kinds + gained
      ensures exists j :: 0 <= j < i + 1 && Genuine(turns[j], kind)
    {
      if kind in kinds {
        var j :| 0 <= j < i && Genuine(turns[..i][j], kind);
        assert Genuine(turns[j], kind);
      } else {
        assert Genuine(turns[i], kind);
      }
    }
    assert forall j :: 0 <= j < i + 1 ==> turns[..i + 1][j] == turns[j];
    ProvenIn(turns, i + 1, kinds + gained);
  }

  lemma ProvenIn(turns: seq<Turn>, n: nat, kinds: set<Kind>)
    requires n <= |turns|
    requires forall kind :: kind in kinds ==> exists j :: 0 <= j < n && Genuine(turns[j], kind)
    ensures Proven(turns[..n], kinds)
  {
    forall kind | kind in kinds
      ensures exists j :: 0 <= j < n && Genuine(turns[..n][j], kind)
    {
      var j :| 0 <= j < n && Genuine(turns[j], kind);
      assert Genuine(turns[..n][j], kind);
    }
  }

  lemma {:induction false} NoPasswordRequired(names: seq<string>)
    ensures Password !in AllRequired(names)
  {
    if names != [] {
      NoPasswordRequired(names[1..]);
    }
  }
}

