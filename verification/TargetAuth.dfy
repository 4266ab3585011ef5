/** Authentication of the gateway against the target: the method dispatcher and the methods it runs.
    Target, client and libssh are an arbitrary script of replies, one for each call into them; the
    end of the script, like a disconnect, ends the process. Every run leaves a trace. */
module TargetAuth {

  datatype Option<T> = None | Some(value: T)

  /** The rows of the method table, and the method bits the protocol knows. */
  datatype Method = Publickey | SshAgent | Hostbased | Interactive | Password

  datatype Wire = WPublickey | WHostbased | WInteractive | WPassword | WOther

  const ALL_METHODS: set<Method> := {Publickey, SshAgent, Hostbased, Interactive, Password}

  function WireOf(m: Method): Wire {
    match m
    case Publickey => WPublickey
    case SshAgent => WPublickey
    case Hostbased => WHostbased
    case Interactive => WInteractive
    case Password => WPassword
  }

  /** Results of libssh calls; Gone means that the process has ended. */
  datatype Rc = Success | Denied | Partial | Info | Again | Error | Gone

  /** Where the target password comes from. Preserved, static and one-time passwords behave alike. */
  datatype Source = Dialog | Given

  /** One reply of the environment; every call reads the fields that concern it. */
  datatype Reply = Reply(rc: Rc, connected: bool, offered: set<Wire>, prompts: seq<string>, message: bool,
                         isPassword: bool, isResponse: bool, isAuth: bool, answers: nat, keyFound: bool,
                         keyUsable: bool, exits: bool)

  datatype Via = KbdInt(prompts: seq<string>) | PasswordMethod

  datatype Event =
    | Offered(offer: set<Wire>)            // the target's list of methods
    | Started(m: Method)
    | Ended(m: Method, rc: Rc)
    | Disabled(methods: set<Method>)
    | Probed(key: nat, accepted: bool)     // a public key offered without a signature
    | Signed(key: nat)
    | StoredSent(via: Via)                 // the stored or extracted password goes to the target
    | DialogSent                           // a password from the user dialog goes to the target
    | Asked                                // the target's prompts go to the client
    | Answered(count: nat)                 // the client's answers go to the target
    | Replied(rc: Rc, initial: bool)       // the target's verdict; initial: on a fresh keyboard-interactive request
    | Wiped                                // the stored password is erased
    | Finished(successful: bool)           // the client's own authentication is concluded

  type Trace = seq<Event>

  // ----- Reading a trace -----------------------------------------------------------

  function Init(t: Trace): Trace
    requires t != []
  {
    t[..|t| - 1]
  }

  function Last(t: Trace): Event
    requires t != []
  {
    t[|t| - 1]
  }

  function Starts(t: Trace, m: Method): nat {
    if t == [] then 0 else Starts(Init(t), m) + if Last(t) == Started(m) then 1 else 0
  }

  function StoredSends(t: Trace): nat {
    if t == [] then 0 else StoredSends(Init(t)) + if Last(t).StoredSent? then 1 else 0
  }

  function DialogSends(t: Trace): nat {
    if t == [] then 0 else DialogSends(Init(t)) + if Last(t).DialogSent? then 1 else 0
  }

  /** Requests of the password method, whoever supplied the password. */
  function PasswordRequests(t: Trace): nat {
    if t == [] then 0
    else PasswordRequests(Init(t)) + if Last(t).DialogSent? || Last(t) == StoredSent(PasswordMethod) then 1 else 0
  }

  predicate WipedIn(t: Trace) {
    t != [] && (Last(t).Wiped? || WipedIn(Init(t)))
  }

  function EnabledAfter(initially: set<Method>, t: Trace): set<Method> {
    if t == [] then initially
    else EnabledAfter(initially, Init(t)) - if Last(t).Disabled? then Last(t).methods else {}
  }

  function LastOffer(t: Trace): set<Wire> {
    if t == [] then {} else if Last(t).Offered? then Last(t).offer else LastOffer(Init(t))
  }

  function LastStart(t: Trace): Option<Method> {
    if t == [] then None else if Last(t).Started? then Some(Last(t).m) else LastStart(Init(t))
  }

  function Running(t: Trace): Option<Method> {
    if t == [] || Last(t).Ended? then None else if Last(t).Started? then Some(Last(t).m) else Running(Init(t))
  }

  /** Whether the password had been wiped before the method now running was started. */
  predicate WipedBefore(t: Trace) {
    t != [] && if Last(t).Started? then WipedIn(Init(t)) else WipedBefore(Init(t))
  }

  /** The target's last verdict on the method now running. */
  function Verdict(t: Trace): (v: Option<Event>)
    ensures v.Some? ==> v.value.Replied?
  {
    if t == [] || Last(t).Started? then None else if Last(t).Replied? then Some(Last(t)) else Verdict(Init(t))
  }

  /** Whether the client has been asked since the running method was started. */
  predicate AskedIn(t: Trace) {
    t != [] && !Last(t).Started? && (Last(t).Asked? || AskedIn(Init(t)))
  }

  predicate Accepted(t: Trace) {
    Verdict(t).Some? && Verdict(t).value.rc == Success
  }

  function LastProbe(t: Trace): Option<(nat, bool)> {
    if t == [] then None
    else if Last(t).Probed? then Some((Last(t).key, Last(t).accepted)) else LastProbe(Init(t))
  }

  // ----- The rules -----------------------------------------------------------------

  predicate Eligible(m: Method, enabled: set<Method>, offered: set<Wire>) {
    m in enabled && WireOf(m) in offered
  }

  /** The last method again while it is eligible, else the first eligible one by preference. */
  predicate Chosen(preferred: seq<Method>, enabled: set<Method>, offered: set<Wire>, last: Option<Method>, m: Method) {
    && Eligible(m, enabled, offered)
    && if last.Some? && Eligible(last.value, enabled, offered) then m == last.value
       else exists i :: 0 <= i < |preferred| && preferred[i] == m
                        && forall j :: 0 <= j < i ==> !Eligible(preferred[j], enabled, offered)
  }

  function Lower(c: char): char {
    if 'A' <= c <= 'Z' then (c as int + 32) as char else c
  }

  /** Starts like "passwor", in any case. */
  predicate AsksForPassword(prompt: string) {
    |prompt| >= 7 && forall i :: 0 <= i < 7 ==> Lower(prompt[i]) == "passwor"[i]
  }

  /** The preference list, the methods enabled at first, and whether the profile allows to go on with the
      dialog after a failed password. */
  datatype Setup = Setup(preferred: seq<Method>, enabled: set<Method>, passwordContinue: bool)

  /** When an event may follow a trace. */
  predicate Rule(setup: Setup, t: Trace, e: Event) {
    var enabled := EnabledAfter(setup.enabled, t);
    && (t != [] && Last(t).Ended? ==> Last(t).rc in {Denied, Partial, Error} && e.Offered?)
    && (Accepted(t) && Running(t).Some? ==> e.Disabled? || e.Wiped? || (e.Ended? && e.rc == Success))
    && match e
       case Started(m) => t != [] && Last(t).Offered? && Running(t).None? && Chosen(setup.preferred, enabled, LastOffer(t), LastStart(t), m)
       case Ended(m, rc) =>
         && Running(t) == Some(m) && rc != Gone
         && (m == SshAgent ==> enabled == {})
         && (m != SshAgent ==> (rc == Success <==> Accepted(t)))
         && (m == Interactive && Verdict(t) == Some(Replied(Denied, true)) ==> m !in enabled)
         && (m == Publickey || m == Hostbased ==> m !in enabled)
         && (m == Password ==> WipedIn(t) && (WipedBefore(t) ==> Password !in enabled))
       case Probed(k, _) => Running(t) == Some(Publickey) && (LastProbe(t).Some? ==> !LastProbe(t).value.1 && LastProbe(t).value.0 < k)
       case Signed(k) => Running(t) == Some(Publickey) && LastProbe(t) == Some((k, true))
       case StoredSent(KbdInt(prompts)) => Running(t) == Some(Interactive) && |prompts| == 1 && AsksForPassword(prompts[0])
       case StoredSent(PasswordMethod) => Running(t) == Some(Password)
       case DialogSent => Running(t) == Some(Password)
       case Asked => Running(t) == Some(Interactive)
       case Answered(count) => Running(t) == Some(Interactive) && AskedIn(t) && count > 0
       case Replied(rc, initial) => Running(t).Some? && Running(t) != Some(SshAgent) && (initial ==> Running(t) == Some(Interactive))
       case Wiped =>
         Running(t) in {Some(Interactive), Some(Password)}
         && (Accepted(t) || setup.passwordContinue || (Interactive !in enabled && Password !in enabled))
       case Finished(successful) => Running(t).Some? && (successful <==> Running(t) == Some(SshAgent))
       case Offered(_) => Running(t).None?
       case _ => true
  }

  predicate Lawful(setup: Setup, t: Trace) {
    t == [] || (Lawful(setup, Init(t)) && Rule(setup, Init(t), Last(t)))
  }

  /** How every reading of a trace changes with one more event. */
  lemma Extend(setup: Setup, t: Trace, e: Event)
    ensures Init(t + [e]) == t && Last(t + [e]) == e
    ensures Lawful(setup, t + [e]) <==> Lawful(setup, t) && Rule(setup, t, e)
  {
    assert (t + [e])[..|t|] == t;
  }

  // ----- What the rules imply over a whole trace -----------------------------------

  lemma {:induction false} RuleAt(setup: Setup, t: Trace, i: nat)
    requires Lawful(setup, t) && i < |t|
    ensures Lawful(setup, t[..i]) && Rule(setup, t[..i], t[i])
  {
    if i < |t| - 1 {
      RuleAt(setup, Init(t), i);
      assert Init(t)[..i] == t[..i];
    }
  }

  lemma {:induction false} EnabledShrinks(enabled: set<Method>, t: Trace, i: nat)
    requires i <= |t|
    ensures EnabledAfter(enabled, t) <= EnabledAfter(enabled, t[..i]) <= enabled
    decreases |t|
  {
    if t != [] {
      if i < |t| {
        EnabledShrinks(enabled, Init(t), i);
        assert Init(t)[..i] == t[..i];
      } else {
        assert t[..i] == t;
        EnabledShrinks(enabled, Init(t), 0);
        assert Init(t)[..0] == [];
      }
    }
  }

  /** A started method was enabled and offered, and was the last one again or the first of the
      preference list among those that were. */
  lemma StartedIsBest(setup: Setup, t: Trace, i: nat)
    requires Lawful(setup, t) && i < |t| && t[i].Started?
    ensures var before := t[..i];
            Chosen(setup.preferred, EnabledAfter(setup.enabled, before), LastOffer(before), LastStart(before), t[i].m)
  {
    RuleAt(setup, t, i);
  }

  /** A disabled method never runs again. */
  lemma DisabledForGood(setup: Setup, t: Trace, i: nat, j: nat)
    requires Lawful(setup, t) && i < j < |t| && t[i].Disabled? && t[j].Started?
    ensures t[j].m !in t[i].methods
  {
    RuleAt(setup, t, j);
    EnabledShrinks(setup.enabled, t[..j], i + 1);
    assert t[..j][..i + 1] == t[..i] + [t[i]];
    Extend(setup, t[..i], t[i]);
  }

  /** When a stored password failed and the profile forbids to continue, no dialog follows. */
  lemma NoDialogAfterFailure(setup: Setup, t: Trace, i: nat, j: nat)
    requires Lawful(setup, t) && i < j < |t| && t[i] == Wiped && !Accepted(t[..i]) && !setup.passwordContinue
    ensures t[j] != Started(Interactive) && t[j] != Started(Password)
  {
    RuleAt(setup, t, i);
    RuleAt(setup, t, j);
    EnabledShrinks(setup.enabled, t[..j], i);
    assert t[..j][..i] == t[..i];
  }

  /** Publickey, ssh-agent and hostbased run at most once. */
  lemma {:induction false} OnlyOnce(setup: Setup, t: Trace, m: Method)
    requires Lawful(setup, t) && m in {Publickey, SshAgent, Hostbased}
    ensures Starts(t, m) <= 1
    ensures Starts(t, m) == 1 ==> Running(t) == Some(m) || m !in EnabledAfter(setup.enabled, t)
  {
    if t != [] {
      OnlyOnce(setup, Init(t), m);
    }
  }

  /** The password method runs at most twice. */
  lemma {:induction false} AtMostTwice(setup: Setup, t: Trace)
    requires Lawful(setup, t)
    ensures Starts(t, Password) <= 2
    ensures Password in EnabledAfter(setup.enabled, t) && Running(t) != Some(Password) ==>
              Starts(t, Password) == 0 || (Starts(t, Password) == 1 && WipedIn(t))
    ensures Running(t) == Some(Password) ==>
              Starts(t, Password) == 1 || (Starts(t, Password) == 2 && WipedBefore(t))
  {
    if t != [] {
      AtMostTwice(setup, Init(t));
    }
  }

  /** Once ssh-agent is started, no other method is: the client's authentication is concluded. */
  lemma {:induction false} NothingAfterAgent(setup: Setup, t: Trace)
    requires Lawful(setup, t) && Starts(t, SshAgent) > 0
    ensures LastStart(t) == Some(SshAgent)
    ensures Running(t) == Some(SshAgent) || (Running(t).None? && EnabledAfter(setup.enabled, t) == {})
  {
    if Starts(Init(t), SshAgent) > 0 {
      NothingAfterAgent(setup, Init(t));
    }
  }

  lemma {:induction false} ConcludedMeansAgent(setup: Setup, t: Trace, i: nat)
    requires Lawful(setup, t) && i < |t| && t[i] == Finished(true)
    ensures forall j :: i < j < |t| ==> !t[j].Started? && t[j] != Finished(false)
  {
    RuleAt(setup, t, i);
    forall j | i < j < |t|
      ensures !t[j].Started? && t[j] != Finished(false)
    {
      RuleAt(setup, t, j);
      var before := t[..j];
      RunningStarted(before[..i]);
      StartsGrow(before, i, SshAgent);
      assert before[..i] == t[..i];
      NothingAfterAgent(setup, before);
    }
  }

  lemma {:induction false} RunningStarted(t: Trace)
    ensures Running(t).Some? ==> Starts(t, Running(t).value) > 0
  {
    if t != [] {
      RunningStarted(Init(t));
    }
  }

  lemma {:induction false} StartsGrow(t: Trace, i: nat, m: Method)
    requires i <= |t|
    ensures Starts(t[..i], m) <= Starts(t, m)
  {
    if i < |t| {
      StartsGrow(Init(t), i, m);
      assert Init(t)[..i] == t[..i];
    } else {
      assert t[..i] == t;
    }
  }

  /** Only a key whose unsigned offer was accepted is used to sign, and no key after it is offered. */
  lemma SignedWasAccepted(setup: Setup, t: Trace, i: nat)
    requires Lawful(setup, t) && i < |t| && t[i].Signed?
    ensures exists j :: 0 <= j < i && t[j] == Probed(t[i].key, true)
    ensures forall j :: i < j < |t| ==> !t[j].Probed?
  {
    RuleAt(setup, t, i);
    ProbeStands(t[..i]);
    var j :| 0 <= j < i && t[..i][j] == Probed(t[i].key, true);
    assert t[j] == Probed(t[i].key, true);
    forall j | i < j < |t|
      ensures !t[j].Probed?
    {
      RuleAt(setup, t, j);
      assert t[..j][..i] == t[..i];
      NoProbeAfterAcceptance(setup, t[..j], i);
    }
  }

  lemma {:induction false} ProbeStands(t: Trace)
    ensures LastProbe(t).Some? ==> exists j :: 0 <= j < |t| && t[j] == Probed(LastProbe(t).value.0, LastProbe(t).value.1)
  {
    if t != [] {
      if Last(t).Probed? {
        assert t[|t| - 1] == Probed(LastProbe(t).value.0, LastProbe(t).value.1);
      } else {
        ProbeStands(Init(t));
        if LastProbe(t).Some? {
          var j :| 0 <= j < |Init(t)| && Init(t)[j] == Probed(LastProbe(t).value.0, LastProbe(t).value.1);
          assert t[j] == Init(t)[j];
        }
      }
    }
  }

  lemma {:induction false} NoProbeAfterAcceptance(setup: Setup, t: Trace, i: nat)
    requires Lawful(setup, t) && i <= |t| && LastProbe(t[..i]).Some? && LastProbe(t[..i]).value.1
    ensures LastProbe(t) == LastProbe(t[..i])
  {
    if i < |t| {
      assert Init(t)[..i] == t[..i];
      NoProbeAfterAcceptance(setup, Init(t), i);
    } else {
      assert t[..i] == t;
    }
  }

  lemma {:induction false} RequestsAreSends(t: Trace)
    ensures PasswordRequests(t) <= StoredSends(t) + DialogSends(t)
  {
    if t != [] {
      RequestsAreSends(Init(t));
    }
  }

  lemma {:induction false} VerdictStands(t: Trace)
    ensures Verdict(t).Some? ==> Verdict(t).value in t
  {
    if t != [] {
      VerdictStands(Init(t));
      assert Last(t) in t && forall e :: e in Init(t) ==> e in t;
    }
  }

  lemma {:induction false} SuccessEnds(setup: Setup, t: Trace, i: nat)
    requires Lawful(setup, t) && i < |t| && t[i].Ended? && t[i].rc == Success
    ensures i == |t| - 1
  {
    if i < |t| - 1 {
      assert Init(t)[i] == t[i];
      SuccessEnds(setup, Init(t), i);
    }
  }

  /** A reported success is the end of the trace, and unless the method was ssh-agent the target itself
      had said so. */
  lemma SuccessIsTheTargets(setup: Setup, t: Trace, i: nat)
    requires Lawful(setup, t) && i < |t| && t[i].Ended? && t[i].rc == Success
    ensures i == |t| - 1
    ensures t[i].m != SshAgent ==> exists initial :: Replied(Success, initial) in t
  {
    RuleAt(setup, t, i);
    if t[i].m != SshAgent {
      VerdictStands(t[..i]);
      var v := Verdict(t[..i]).value;
      assert v == Replied(Success, v.initial) && v in t;
    }
    SuccessEnds(setup, t, i);
  }

  lemma {:induction false} RunningIsLast(t: Trace)
    ensures Running(t).Some? ==> LastStart(t) == Running(t)
    ensures WipedBefore(t) ==> WipedIn(t)
  {
    if t != [] {
      RunningIsLast(Init(t));
    }
  }

  /** No key is offered before the first run of publickey. */
  lemma {:induction false} FirstProbe(setup: Setup, t: Trace)
    requires Lawful(setup, t)
    ensures LastProbe(t).Some? ==> Starts(t, Publickey) > 0
  {
    if t != [] {
      FirstProbe(setup, Init(t));
      RunningStarted(Init(t));
    }
  }

  lemma NothingOffered(enabled: set<Method>)
    ensures forall m :: !Eligible(m, enabled, {})
  {}

  /** Whatever method ended, and was not the last event, ended in a failure that lets the dispatcher go on,
      and what follows at once is a new list of the target's methods. */
  lemma FailureGoesOn(setup: Setup, t: Trace, i: nat)
    requires Lawful(setup, t) && i < |t| - 1 && t[i].Ended?
    ensures t[i].rc in {Denied, Partial, Error} && t[i + 1].Offered?
  {
    RuleAt(setup, t, i + 1);
    assert Last(t[..i + 1]) == t[i];
  }

  // ----- The state machines --------------------------------------------------------

  datatype State = Initial | TargetInfo | ClientStart | ClientWait | ClientAnswer | TargetAgain

  /** Where a result of the target leads; other results leave the state as it is. */
  function NextState(state: State, rc: Rc): State {
    match rc
    case Info => TargetInfo
    case Error => Initial
    case Again => TargetAgain
    case _ => state
  }

  /** Replies that neither end the process nor disconnect anybody, and bring a message where one is awaited. */
  predicate Steady(script: seq<Reply>) {
    forall r :: r in script ==> !r.exits && r.rc != Gone && r.connected
  }

  predicate Talkative(script: seq<Reply>) {
    forall r :: r in script ==> r.message
  }

  /** The target would accept the key this reply is about. */
  predicate Accepts(r: Reply) {
    r.keyFound && r.rc == Success
  }

  /** Each of the first `n` keys that could be loaded was offered, and only the last of them accepted. */
  ghost predicate Offers(script: seq<Reply>, n: nat, t: Trace) {
    && n <= |script|
    && (forall k :: 0 <= k < n && script[k].keyFound ==> Probed(k, script[k].rc == Success) in t)
    && forall k :: 0 <= k < n - 1 ==> !Accepts(script[k])
  }

  lemma OffersStand(script: seq<Reply>, n: nat, t: Trace, u: Trace)
    requires t <= u && Offers(script, n, t)
    ensures Offers(script, n, u)
  {
    assert forall e :: e in t ==> e in u;
  }

  lemma SignsStand(script: seq<Reply>, n: nat, t: Trace, u: Trace, rc: Rc)
    requires t <= u
    ensures Signs(script, n, t, rc) ==> Signs(script, n, u, rc)
  {
    assert forall e :: e in t ==> e in u;
  }

  lemma SignsWith(script: seq<Reply>, n: nat, t: Trace, u: Trace, rc: Rc)
    requires 0 < n < |script|
    requires if script[n].keyFound && script[n].keyUsable then
               n + 1 < |script| && rc == script[n + 1].rc && u == t + [Signed(n - 1), Replied(rc, false)]
             else rc == Error
    ensures Signs(script, n, u, rc)
  {
    if script[n].keyFound && script[n].keyUsable {
      assert u[|t|] == Signed(n - 1);
    }
  }

  /** The accepted key is used, unless it cannot be loaded, and the result is the target's verdict. */
  ghost predicate Signs(script: seq<Reply>, n: nat, t: Trace, rc: Rc) {
    && 0 < n < |script|
    && if script[n].keyFound && script[n].keyUsable then n + 1 < |script| && Signed(n - 1) in t && rc == script[n + 1].rc
       else rc == Error
  }

  class Session {
    const setup: Setup
    const keys: nat                // identities from the context, or else the gateway's
    var script: seq<Reply>
    var enabled: set<Method>
    var active: Option<Method>
    var allowed: set<Wire>
    var source: Source
    var userpw: Option<string>
    var useExtracted: bool
    var requestSent: bool
    var clientMessage: bool        // a message of the client is at hand
    ghost var trace: Trace

    /** The claims that hold at every moment, even when the process ends in the middle of a call. */
    ghost predicate Safe()
      reads this
    {
      Lawful(setup, trace) && StoredSends(trace) <= 1 && DialogSends(trace) <= 3
    }

    /** The flags agree with the trace, and the dialog leaves no password method behind. */
    ghost predicate Flags()
      reads this
    {
      && Safe()
      && enabled == EnabledAfter(setup.enabled, trace)
      && (Password in enabled ==> DialogSends(trace) == 0)
    }

    /** Between calls: a password still held was never sent, and none is held once wiped. */
    ghost predicate Valid()
      reads this
    {
      && Flags()
      && (userpw.Some? ==> StoredSends(trace) == 0)
      && (WipedIn(trace) ==> userpw.None? && source == Dialog)
    }

    constructor (setup: Setup, keys: nat, source: Source, userpw: Option<string>,
                 useExtracted: bool, clientMessage: bool, script: seq<Reply>)
      ensures Valid() && trace == [] && active.None?
      ensures this.setup == setup && this.script == script
    {
      this.setup, this.keys := setup, keys;
      this.source, this.userpw, this.useExtracted := source, userpw, useExtracted;
      this.clientMessage, this.script := clientMessage, script;
      enabled, active, requestSent, trace := setup.enabled, None, false, [];
    }

    ghost method Log(e: Event)
      requires Lawful(setup, trace) && Rule(setup, trace, e)
      modifies this`trace
      ensures trace == old(trace) + [e] && Init(trace) == old(trace) && Last(trace) == e
      ensures Lawful(setup, trace)
    {
      Extend(setup, trace, e);
      trace := trace + [e];
    }

    /** Events that change no flag and no password. */
    ghost method Note(e: Event)
      requires Valid() && Running(trace).Some? && Rule(setup, trace, e)
      requires e.Probed? || e.Signed? || e.Asked? || e.Answered? || e.Finished?
      modifies this`trace
      ensures Valid() && trace == old(trace) + [e] && Running(trace) == old(Running(trace))
      ensures WipedIn(trace) == old(WipedIn(trace)) && WipedBefore(trace) == old(WipedBefore(trace))
      ensures Verdict(trace) == old(Verdict(trace))
      ensures LastProbe(trace) == if e.Probed? then Some((e.key, e.accepted)) else old(LastProbe(trace))
      ensures DialogSends(trace) == old(DialogSends(trace)) && StoredSends(trace) == old(StoredSends(trace))
      ensures AskedIn(trace) <==> e.Asked? || old(AskedIn(trace))
    {
      Log(e);
    }

    /** The target's verdict arrives. */
    ghost method NoteVerdict(rc: Rc, initial: bool)
      requires Flags() && Rule(setup, trace, Replied(rc, initial))
      modifies this`trace
      ensures Flags() && (old(Valid()) ==> Valid()) && trace == old(trace) + [Replied(rc, initial)]
      ensures Running(trace) == old(Running(trace)) && Verdict(trace) == Some(Replied(rc, initial))
      ensures WipedIn(trace) == old(WipedIn(trace)) && WipedBefore(trace) == old(WipedBefore(trace))
      ensures AskedIn(trace) == old(AskedIn(trace))
      ensures StoredSends(trace) == old(StoredSends(trace)) && DialogSends(trace) == old(DialogSends(trace))
    {
      Log(Replied(rc, initial));
    }

    /** Replies are used up from the front. */
    twostate predicate Uses()
      reads this
    {
      && |script| <= |old(script)|
      && (Steady(old(script)) ==> Steady(script)) && (Talkative(old(script)) ==> Talkative(script))
    }

    /** What ends the process inside a call: the script is over, or a reply exits, disconnects or brings no
        message of the client. */
    twostate predicate Lost()
      reads this
    {
      script == [] || !Steady(old(script)) || !Talkative(old(script))
    }

    /** The next reply of the environment, unless the process ends with this call. */
    method Next() returns (r: Reply, gone: bool)
      modifies this`script
      ensures gone <==> old(script) == [] || old(script)[0].exits || old(script)[0].rc == Gone
      ensures !gone ==> r == old(script)[0] && script == old(script)[1..] && |script| < |old(script)|
      ensures !gone && Steady(old(script)) ==> r.connected
      ensures !gone && Talkative(old(script)) ==> r.message
      ensures gone ==> Lost() && (script == [] || !Steady(old(script)))
      ensures Uses()
    {
      r := Reply(Gone, false, {}, [], false, false, false, false, 0, false, false, true);
      gone := true;
      if script != [] {
        r, script := script[0], script[1..];
        gone := r.exits || r.rc == Gone;
      }
    }

    method Disable(methods: set<Method>)
      requires Flags() && Running(trace).Some?
      modifies this`enabled, this`trace
      ensures Flags() && (old(Valid()) ==> Valid())
      ensures enabled == old(enabled) - methods && trace == old(trace) + [Disabled(methods)]
      ensures SameRun()
    {
      enabled := enabled - methods;
      Log(Disabled(methods));
    }

    /** The method that runs, and whether a password was wiped before and during its run. */
    twostate predicate SameRun()
      reads this
    {
      && Running(trace) == old(Running(trace))
      && WipedIn(trace) == old(WipedIn(trace)) && WipedBefore(trace) == old(WipedBefore(trace))
      && Verdict(trace) == old(Verdict(trace)) && AskedIn(trace) == old(AskedIn(trace))
      && StoredSends(trace) == old(StoredSends(trace)) && DialogSends(trace) == old(DialogSends(trace))
    }

    // ----- Publickey, hostbased, ssh-agent ---------------------------------------------

    /** Offers the keys in order until the target would accept one, and signs with that one. `n` keys were
        reached: all of them, unless the last of these is the accepted one. */
    method AuthenticatePublickey() returns (rc: Rc, ghost n: nat)
      requires Valid() && Running(trace) == Some(Publickey) && LastProbe(trace).None? && Verdict(trace).None?
      modifies this`script, this`enabled, this`trace
      ensures Safe() && Running(trace) == Some(Publickey) && Uses() && (rc == Gone ==> Lost())
      ensures rc != Gone ==> Valid() && (rc == Success <==> Accepted(trace)) && Publickey !in enabled
      ensures rc != Gone ==> n <= keys && Offers(old(script), n, trace)
      ensures rc != Gone ==> if n > 0 && Accepts(old(script)[n - 1]) then Signs(old(script), n, trace, rc)
                             else n == keys && rc != Success
    {
      hide Lawful, EnabledAfter, StoredSends, DialogSends, WipedIn, WipedBefore, Verdict, AskedIn, Steady, Talkative, Offers, Signs;
      var useKey := -1;
      rc, useKey, n := OfferKeys();
      if rc == Gone { return; }
      ghost var offered := trace;
      if rc == Success && useKey > -1 {
        rc := SignWith(useKey);
        if rc == Gone { return; }
        SignsWith(old(script), n, offered, trace, rc);
      }
      ghost var before := trace;
      Disable({Publickey});
      OffersStand(old(script), n, offered, trace);
      SignsStand(old(script), n, before, trace, rc);
    }

    /** The loop over the keys. */
    method OfferKeys() returns (rc: Rc, useKey: int, ghost n: nat)
      requires Valid() && Running(trace) == Some(Publickey) && LastProbe(trace).None? && Verdict(trace).None?
      modifies this`script, this`trace
      ensures Safe() && Running(trace) == Some(Publickey) && Uses() && (rc == Gone ==> Lost())
      ensures rc != Gone ==> Valid() && Verdict(trace).None?
      ensures rc != Gone ==> n <= keys && n <= |old(script)| && script == old(script)[n..] && Offers(old(script), n, trace)
      ensures rc != Gone ==> if n > 0 && Accepts(old(script)[n - 1]) then
                               rc == Success && useKey == n - 1 && LastProbe(trace) == Some((useKey as nat, true))
                             else n == keys && rc != Success
    {
      hide Lawful, EnabledAfter, StoredSends, DialogSends, WipedIn, WipedBefore, Verdict, AskedIn, Steady, Talkative;
      var k := 0;
      useKey, n, rc := -1, 0, Error;
      while k < keys && rc != Success
        invariant Valid() && Running(trace) == Some(Publickey) && Verdict(trace).None? && Uses()
        invariant k == n <= keys && n <= |old(script)| && script == old(script)[n..]
        invariant LastProbe(trace).Some? ==> LastProbe(trace).value.0 < k && (rc != Success ==> !LastProbe(trace).value.1)
        invariant rc != Gone && (rc == Success <==> n > 0 && Accepts(old(script)[n - 1]))
        invariant rc == Success ==> useKey == k - 1 && LastProbe(trace) == Some((k - 1, true))
        invariant Offers(old(script), n, trace)
        decreases keys - k
      {
        var reply, gone := Next();
        if gone { return Gone, -1, n; }
        if reply.keyFound {
          rc := reply.rc;
          Note(Probed(k, rc == Success));
          if rc == Success {
            useKey := k;
          }
        }
        k := k + 1;
        n := n + 1;
      }
    }

    /** The accepted key, if it can be loaded, and the target's verdict on it. */
    method SignWith(key: nat) returns (rc: Rc)
      requires Valid() && Running(trace) == Some(Publickey) && LastProbe(trace) == Some((key, true)) && Verdict(trace).None?
      modifies this`script, this`trace
      ensures Valid() && Running(trace) == Some(Publickey) && Uses() && (rc == Gone ==> Lost()) && old(trace) <= trace
      ensures rc != Gone ==> (rc == Success <==> Accepted(trace)) && old(script) != []
      ensures rc != Gone ==> if old(script)[0].keyFound && old(script)[0].keyUsable then
                               |old(script)| > 1 && rc == old(script)[1].rc && trace == old(trace) + [Signed(key), Replied(rc, false)]
                             else rc == Error
    {
      hide Lawful, EnabledAfter, StoredSends, DialogSends, WipedIn, WipedBefore, Verdict, AskedIn, Steady, Talkative;
      var reply, gone := Next();
      if gone { return Gone; }
      if reply.keyFound && reply.keyUsable {
        Note(Signed(key));
        reply, gone := Next();
        if gone { return Gone; }
        rc := reply.rc;
        NoteVerdict(rc, false);
      } else {
        rc := Error;
      }
    }

    method AuthenticateHostbased() returns (rc: Rc)
      requires Valid() && Running(trace) == Some(Hostbased) && Verdict(trace).None?
      modifies this`enabled, this`trace
      ensures Valid() && Running(trace) == Some(Hostbased) && Hostbased !in enabled && rc == Denied
      ensures Verdict(trace).None?
    {
      Disable({Hostbased});
      return Denied;
    }

    /** Concludes the client's authentication for good, so every method is disabled afterwards. */
    method AuthenticateSshAgent() returns (rc: Rc)
      requires Valid() && Running(trace) == Some(SshAgent) && Verdict(trace).None?
      modifies this`script, this`enabled, this`trace
      ensures Safe() && Running(trace) == Some(SshAgent) && Uses()
      ensures old(trace) + [Finished(true)] <= trace
      ensures rc == Gone ==> Lost()
      ensures rc != Gone ==> Valid() && enabled == {} && Verdict(trace).None? && old(script) != [] && rc == old(script)[0].rc
    {
      hide Lawful, EnabledAfter, StoredSends, DialogSends, WipedIn, WipedBefore, Verdict, AskedIn;
      Note(Finished(true));
      var reply, gone := Next();
      if gone { return Gone; }
      rc := reply.rc;
      Disable(ALL_METHODS);
      forall m: Method
        ensures m in ALL_METHODS
      {
        match m case Publickey => case SshAgent => case Hostbased => case Interactive => case Password =>
      }
    }

    // ----- Passwords -------------------------------------------------------------------

    /** After a try: one that failed without permission to continue leaves no dialog method. */
    method ContinueOrAbort(rc: Rc)
      requires Flags() && Running(trace).Some?
      modifies this`enabled, this`trace
      ensures Flags() && SameRun()
      ensures enabled == old(enabled) - (if rc != Success && !setup.passwordContinue then {Interactive, Password} else {})
      ensures old(Valid()) ==> Valid()
    {
      if rc != Success && !setup.passwordContinue {
        Disable({Interactive, Password});
      }
    }

    /** Erases the stored password; from now on only the dialog is left. */
    method Wipe()
      requires Flags() && Rule(setup, trace, Wiped)
      modifies this`source, this`userpw, this`trace
      ensures Valid() && WipedIn(trace) && userpw.None? && source == Dialog
      ensures Running(trace) == old(Running(trace)) && WipedBefore(trace) == old(WipedBefore(trace))
      ensures Verdict(trace) == old(Verdict(trace)) && AskedIn(trace) == old(AskedIn(trace))
      ensures StoredSends(trace) == old(StoredSends(trace)) && DialogSends(trace) == old(DialogSends(trace))
    {
      source, userpw := Dialog, None;
      Log(Wiped);
    }

    method AbortThenWipe(rc: Rc)
      requires Flags() && Running(trace) in {Some(Interactive), Some(Password)} && (rc == Success <==> Accepted(trace))
      modifies this`enabled, this`source, this`userpw, this`trace
      ensures Valid() && WipedIn(trace) && userpw.None? && source == Dialog
      ensures enabled == old(enabled) - (if rc != Success && !setup.passwordContinue then {Interactive, Password} else {})
      ensures Running(trace) == old(Running(trace)) && WipedBefore(trace) == old(WipedBefore(trace))
      ensures Verdict(trace) == old(Verdict(trace)) && AskedIn(trace) == old(AskedIn(trace))
      ensures StoredSends(trace) == old(StoredSends(trace)) && DialogSends(trace) == old(DialogSends(trace))
    {
      ContinueOrAbort(rc);
      Wipe();
    }

    /** Sends the stored password; the caller wipes it at once. */
    method SubmitStored(via: Via) returns (rc: Rc)
      requires Valid() && userpw.Some? && Rule(setup, trace, StoredSent(via))
      modifies this`script, this`trace
      ensures Flags() && Uses()
      ensures Running(trace) == old(Running(trace)) && WipedBefore(trace) == old(WipedBefore(trace))
      ensures AskedIn(trace) == old(AskedIn(trace))
      ensures StoredSends(trace) == old(StoredSends(trace)) + 1 && DialogSends(trace) == old(DialogSends(trace))
      ensures if rc == Gone then Lost() else Verdict(trace) == Some(Replied(rc, false))
    {
      Log(StoredSent(via));
      var reply, gone := Next();
      if gone { return Gone; }
      NoteVerdict(reply.rc, false);
      return reply.rc;
    }

    predicate Usable(prompts: seq<string>)
      reads this
    {
      userpw.Some? && |userpw.value| > 0 && |prompts| == 1 && AsksForPassword(prompts[0])
    }

    /** Concludes the client's authentication and makes sure that a message of the client is at hand. */
    method FinishClient() returns (gone: bool)
      requires Valid() && Running(trace).Some? && Running(trace) != Some(SshAgent) && !Accepted(trace)
      modifies this`script, this`trace, this`clientMessage
      ensures Valid() && SameRun() && Uses() && (gone ==> Lost()) && trace == old(trace) + [Finished(false)]
    {
      Note(Finished(false));
      var reply;
      reply, gone := Next();
      if !gone && !clientMessage {
        clientMessage := reply.message;
      }
    }

    /** Prompts from the target: the stored password answers them if it can, or else the client must. */
    method HandlePrompts(prompts: seq<string>, last: Rc, state: State) returns (rc: Rc, next: State)
      requires Valid() && Running(trace) == Some(Interactive) && |prompts| > 0 && last != Gone && !Accepted(trace)
      modifies this`script, this`enabled, this`trace, this`source, this`userpw, this`useExtracted
      ensures Safe() && Running(trace) == Some(Interactive) && Uses()
      ensures rc != Gone ==> Valid() && (Verdict(trace) == old(Verdict(trace)) || Verdict(trace) == Some(Replied(rc, false)))
      ensures enabled <= old(enabled) && (old(AskedIn(trace)) ==> AskedIn(trace))
      ensures old(source == Dialog && !(useExtracted && Usable(prompts))) ==>
                next == ClientStart && rc == last && trace == old(trace) && userpw == old(userpw)
      ensures rc != Gone && !old(source == Dialog && !(useExtracted && Usable(prompts))) ==>
                && next == NextState(state, rc) && (rc == Success <==> Accepted(trace)) && userpw.None? && source == Dialog
                && (rc != Success && !setup.passwordContinue ==> Interactive !in enabled && Password !in enabled)
                && StoredSends(trace) == old(StoredSends(trace)) + (if old(Usable(prompts)) then 1 else 0)
                && (old(Usable(prompts)) || rc == Error)
      ensures rc == Gone ==> Lost()
      ensures rc != last ==> rc == Gone || Verdict(trace) == Some(Replied(rc, false)) || rc == Error
    {
      rc, next := last, state;
      if source == Dialog && !(useExtracted && Usable(prompts)) {
        next := ClientStart;
        return;
      }
      if Usable(prompts) {
        rc := SubmitStored(KbdInt(prompts));
        if rc == Gone { return; }
        if source == Dialog {
          useExtracted := false;
        }
      } else {
        rc := Error;
      }
      next := NextState(state, rc);
      AbortThenWipe(rc);
    }

    /** The target's prompts go to the client. */
    method AskClient() returns (gone: bool)
      requires Valid() && Running(trace) == Some(Interactive) && !Accepted(trace)
      modifies this`script, this`trace, this`clientMessage
      ensures Valid() && Running(trace) == Some(Interactive) && Verdict(trace) == old(Verdict(trace))
      ensures Uses() && (if gone then Lost() else AskedIn(trace) && trace == old(trace) + [Finished(false), Asked])
    {
      gone := FinishClient();
      if gone { return true; }
      var link;
      link, gone := Next();
      if gone || !link.connected { return true; }
      Note(Asked);
    }

    /** The client's answers go to the target. */
    method ForwardAnswers(count: nat) returns (rc: Rc)
      requires Valid() && Running(trace) == Some(Interactive) && count > 0 && !Accepted(trace) && AskedIn(trace)
      modifies this`script, this`trace
      ensures Valid() && Running(trace) == Some(Interactive) && Uses() && AskedIn(trace)
      ensures rc == Gone ==> Lost()
      ensures rc != Gone ==> trace == old(trace) + [Answered(count), Replied(rc, false)]
                             && Verdict(trace) == Some(Replied(rc, false))
    {
      Note(Answered(count));
      rc := Request(false);
    }

    /** A keyboard-interactive request, fresh or going on, and the target's verdict on it. */
    method Request(initial: bool) returns (rc: Rc)
      requires Valid() && Running(trace) == Some(Interactive) && !Accepted(trace)
      modifies this`script, this`trace
      ensures Valid() && Running(trace) == Some(Interactive) && Uses()
      ensures AskedIn(trace) == old(AskedIn(trace)) && (rc == Gone ==> Lost())
      ensures rc != Gone ==> trace == old(trace) + [Replied(rc, initial)] && Verdict(trace) == Some(Replied(rc, initial))
    {
      var reply, gone := Next();
      if gone { return Gone; }
      NoteVerdict(reply.rc, initial);
      return reply.rc;
    }

    /** The bridge between the target's prompts and the client's answers. While both ends stay connected it
        ends with the target's success or refusal, with an error on a fresh request, or with a client that
        no longer answers. */
    method AuthenticateInteractive() returns (rc: Rc)
      requires Valid() && Running(trace) == Some(Interactive) && Verdict(trace).None?
      modifies this`script, this`enabled, this`trace, this`source, this`userpw, this`useExtracted, this`clientMessage
      ensures Safe() && Running(trace) == Some(Interactive) && Uses() && (rc == Gone ==> Lost())
      ensures rc != Gone ==> Valid() && (rc == Success <==> Accepted(trace))
      ensures rc != Gone && Verdict(trace) == Some(Replied(Denied, true)) ==> Interactive !in enabled
      ensures rc == Denied && Talkative(old(script)) ==> Refused(trace)
      ensures rc != Gone && Steady(old(script)) ==> rc in {Success, Denied} || Verdict(trace) == Some(Replied(Error, true))
    {
      hide Lawful, EnabledAfter, StoredSends, DialogSends, WipedIn, WipedBefore, Running, Verdict, AskedIn, AsksForPassword,
           Steady, Talkative;
      var state, over := Initial, false;
      rc := Error;
      while rc != Success && rc != Denied && !over
        invariant rc != Gone ==> Valid() && (rc == Success <==> Accepted(trace))
        invariant Safe() && Running(trace) == Some(Interactive) && Uses()
        invariant rc == Gone ==> over && Lost()
        invariant rc != Gone && (state == ClientWait || state == ClientAnswer) ==> AskedIn(trace)
        invariant rc != Gone && Verdict(trace) == Some(Replied(Denied, true)) ==> Interactive !in enabled
        invariant rc == Denied && Talkative(old(script)) ==> Refused(trace)
        invariant over && rc != Gone && Steady(old(script)) ==> Verdict(trace) == Some(Replied(Error, true))
        decreases |script|, !over
      {
        rc, state, over := Round(rc, state);
      }
    }

    ghost predicate Refused(t: Trace) {
      Verdict(t).Some? && Verdict(t).value.rc == Denied
    }

    /** One round of the bridge; over: a connection is gone, or a fresh request met an error. */
    method Round(last: Rc, state: State) returns (rc: Rc, next: State, over: bool)
      requires Valid() && Running(trace) == Some(Interactive) && !Accepted(trace) && last !in {Gone, Success, Denied}
      requires state == ClientWait || state == ClientAnswer ==> AskedIn(trace)
      requires Verdict(trace) == Some(Replied(Denied, true)) ==> Interactive !in enabled
      modifies this`script, this`enabled, this`trace, this`source, this`userpw, this`useExtracted, this`clientMessage
      ensures Safe() && Running(trace) == Some(Interactive) && Uses() && (rc == Gone ==> over && Lost())
      ensures over || |script| < old(|script|)
      ensures rc != Gone ==> Valid() && (rc == Success <==> Accepted(trace))
      ensures rc != Gone && Verdict(trace) == Some(Replied(Denied, true)) ==> Interactive !in enabled
      ensures rc != Gone && (next == ClientWait || next == ClientAnswer) ==> AskedIn(trace)
      ensures rc == Denied && Talkative(old(script)) ==> Refused(trace)
      ensures over && rc != Gone && Steady(old(script)) ==> Verdict(trace) == Some(Replied(Error, true))
      ensures over && rc in {Success, Denied} ==> !Steady(old(script))
    {
      hide Lawful, EnabledAfter, StoredSends, DialogSends, WipedIn, WipedBefore, Running, Verdict, AskedIn, AsksForPassword,
           Steady, Talkative;
      rc, next, over := last, state, false;
      var link, gone := Next();
      if gone { return Gone, next, true; }
      if !link.connected { return last, next, true; }
      match state
      case Initial =>
        rc, next, over := Fresh(last);
      case TargetInfo =>
        rc, next := Prompted(last);
        over := rc == Gone;
      case TargetAgain =>
        rc := Request(false);
        over := rc == Gone;
        next := NextState(state, rc);
      case _ =>
        rc, next := TalkToClient(last, state);
        over := rc == Gone;
    }

    /** A fresh request. */
    method Fresh(last: Rc) returns (rc: Rc, next: State, over: bool)
      requires Valid() && Running(trace) == Some(Interactive) && !Accepted(trace)
      modifies this`script, this`enabled, this`trace
      ensures Valid() && Running(trace) == Some(Interactive) && Uses() && (rc == Gone ==> over && Lost())
      ensures rc != Gone ==> Verdict(trace) == Some(Replied(rc, true)) && (rc == Denied ==> Interactive !in enabled)
      ensures over <==> rc in {Gone, Error}
      ensures next == if rc == Info then TargetInfo else Initial
    {
      hide Lawful, EnabledAfter, StoredSends, DialogSends, WipedIn, WipedBefore, Running, Verdict, AskedIn, Steady, Talkative;
      next, over := Initial, false;
      rc := Request(true);
      match rc {
        case Gone => over := true;
        case Denied => Disable({Interactive});
        case Info => next := TargetInfo;
        case Error => over := true;
        case _ =>
      }
    }

    /** The target has prompts, or wants to go on without. */
    method Prompted(last: Rc) returns (rc: Rc, next: State)
      requires Valid() && Running(trace) == Some(Interactive) && !Accepted(trace) && last !in {Gone, Success, Denied}
      requires Verdict(trace) == Some(Replied(Denied, true)) ==> Interactive !in enabled
      modifies this`script, this`enabled, this`trace, this`source, this`userpw, this`useExtracted
      ensures Safe() && Running(trace) == Some(Interactive) && Uses() && (rc == Gone ==> Lost())
      ensures rc != Gone ==> Valid() && (rc == Success <==> Accepted(trace))
      ensures rc != Gone && Verdict(trace) == Some(Replied(Denied, true)) ==> Interactive !in enabled
      ensures rc == Denied ==> Refused(trace)
      ensures rc != Gone ==> next !in {ClientWait, ClientAnswer}
    {
      hide Lawful, EnabledAfter, StoredSends, DialogSends, WipedIn, WipedBefore, Running, Verdict, AskedIn, AsksForPassword,
           Steady, Talkative;
      next := TargetInfo;
      var info, gone := Next();
      if gone { return Gone, next; }
      if |info.prompts| > 0 {
        rc, next := HandlePrompts(info.prompts, last, TargetInfo);
      } else {
        rc := Request(false);
      }
    }

    /** The client is asked, and its answers go on to the target. */
    method TalkToClient(last: Rc, state: State) returns (rc: Rc, next: State)
      requires Valid() && Running(trace) == Some(Interactive) && !Accepted(trace) && last !in {Gone, Success, Denied}
      requires state in {ClientStart, ClientWait, ClientAnswer} && (state != ClientStart ==> AskedIn(trace))
      modifies this`script, this`trace, this`clientMessage
      ensures Valid() && Running(trace) == Some(Interactive) && Uses() && (rc == Gone ==> Lost())
      ensures rc != Gone ==> AskedIn(trace) && (rc == Success <==> Accepted(trace))
      ensures Verdict(trace) == old(Verdict(trace)) || Verdict(trace) == Some(Replied(rc, false)) || rc == Gone
      ensures rc == Denied && Talkative(old(script)) ==> Refused(trace)
      ensures rc != Gone && state == ClientStart ==> next == ClientWait && rc == last
      ensures rc != Gone && state == ClientWait ==> if clientMessage then next == ClientAnswer && rc == last else rc == Denied
      ensures rc != Gone && state == ClientAnswer ==> next == ClientWait || next == NextState(state, rc)
    {
      hide Lawful, EnabledAfter, StoredSends, DialogSends, WipedIn, WipedBefore, Running, Verdict, AskedIn, Steady, Talkative;
      rc, next := last, state;
      if state == ClientStart {
        var gone := AskClient();
        if gone { return Gone, next; }
        return rc, ClientWait;
      }
      var reply, gone := Next();
      if gone { return Gone, next; }
      if state == ClientWait {
        clientMessage := reply.message;
        if clientMessage {
          next := ClientAnswer;
        } else {
          rc := Denied;
        }
      } else if reply.answers > 0 {
        rc := ForwardAnswers(reply.answers);
        if rc == Gone { return; }
        next := NextState(state, rc);
      } else {
        next := ClientWait;
      }
    }

    /** One password from the dialog. */
    method SubmitFromDialog() returns (rc: Rc)
      requires Safe() && Running(trace) == Some(Password) && DialogSends(trace) < 3 && !Accepted(trace)
      modifies this`script, this`trace
      ensures Safe() && Uses() && DialogSends(trace) == old(DialogSends(trace)) + 1
      ensures if rc == Gone then Lost() else Verdict(trace) == Some(Replied(rc, false))
      ensures Running(trace) == Some(Password) && WipedIn(trace) == old(WipedIn(trace))
      ensures WipedBefore(trace) == old(WipedBefore(trace)) && StoredSends(trace) == old(StoredSends(trace))
      ensures EnabledAfter(setup.enabled, trace) == old(EnabledAfter(setup.enabled, trace))
    {
      Log(DialogSent);
      var reply, gone := Next();
      if gone { return Gone; }
      Log(Replied(reply.rc, false));
      return reply.rc;
    }

    /** Collects passwords from the client and tries each against the target, until one is accepted or
        three have been tried. */
    method KbdIntOrPassword() returns (rc: Rc)
      requires Valid() && Running(trace) == Some(Password) && DialogSends(trace) == 0 && Verdict(trace).None?
      modifies this`script, this`trace, this`clientMessage, this`requestSent
      ensures Safe() && Running(trace) == Some(Password) && Uses()
      ensures if rc == Gone then Lost() else (rc == Success <==> Accepted(trace)) && (rc == Success || DialogSends(trace) == 3)
      ensures SameDialog()
    {
      hide Lawful, EnabledAfter, StoredSends, DialogSends, WipedIn, WipedBefore, Running, Verdict, Steady, Talkative;
      rc := Denied;
      var attempts := 0;
      while rc != Success && rc != Gone && attempts < 3
        invariant Safe() && Uses() && attempts == DialogSends(trace) && SameDialog()
        invariant Running(trace) == Some(Password)
        invariant if rc == Gone then Lost() else (rc == Success <==> Accepted(trace))
        decreases |script|, rc != Gone
      {
        rc, attempts := DialogRound(rc, attempts);
      }
    }

    /** The dialog leaves the flags and the stored password alone. */
    twostate predicate SameDialog()
      reads this
    {
      && WipedIn(trace) == old(WipedIn(trace)) && WipedBefore(trace) == old(WipedBefore(trace))
      && StoredSends(trace) == old(StoredSends(trace))
      && EnabledAfter(setup.enabled, trace) == old(EnabledAfter(setup.enabled, trace))
    }

    /** One message of the client. */
    method DialogRound(last: Rc, tried: nat) returns (rc: Rc, attempts: nat)
      requires Safe() && Running(trace) == Some(Password) && tried == DialogSends(trace) < 3
      requires !Accepted(trace) && last != Gone && last != Success
      modifies this`script, this`trace, this`clientMessage, this`requestSent
      ensures Safe() && Running(trace) == Some(Password) && Uses() && SameDialog() && attempts == DialogSends(trace)
      ensures if rc == Gone then Lost() else |script| < old(|script|) && (rc == Success <==> Accepted(trace))
    {
      hide Lawful, EnabledAfter, StoredSends, DialogSends, WipedIn, WipedBefore, Running, Verdict, Steady, Talkative;
      rc, attempts := last, tried;
      var reply, gone := Next();
      if gone { return Gone, attempts; }
      if !requestSent {
        if !clientMessage {
          clientMessage := reply.message;
        }
        if clientMessage && reply.isAuth && reply.isPassword {
          attempts := attempts + 1;
          rc := SubmitFromDialog();
          if rc == Gone || rc == Success { return; }
          clientMessage := false;
        } else {
          requestSent := true;
        }
      } else {
        clientMessage := reply.message;
        if !clientMessage {
          return Gone, attempts;   // the gateway disconnects both sides
        }
        if reply.isResponse {
          if reply.isAuth {
            if reply.answers == 1 {
              attempts := attempts + 1;
              rc := SubmitFromDialog();
            }
          } else {
            rc := Denied;
          }
        }
      }
    }

    predicate HasPassword()
      reads this
    {
      userpw.Some? && |userpw.value| > 0
    }

    /** A password at hand is sent, and the target's verdict on it is the result. Otherwise the client is
        asked for up to three, if it may be. */
    method AuthenticatePassword() returns (rc: Rc)
      requires Valid() && Running(trace) == Some(Password) && Password in enabled && Verdict(trace).None?
      modifies this`script, this`enabled, this`trace, this`source, this`userpw, this`useExtracted, this`clientMessage, this`requestSent
      ensures Safe() && Running(trace) == Some(Password) && Uses() && (rc == Gone ==> Lost())
      ensures rc != Gone ==> Valid()
      ensures rc != Gone ==> (rc == Success <==> Accepted(trace))
      ensures rc != Gone ==> WipedIn(trace) && (WipedBefore(trace) ==> Password !in enabled)
      ensures rc != Gone ==>
                if old(HasPassword() && (source != Dialog || useExtracted)) then
                  StoredSends(trace) == old(StoredSends(trace)) + 1 && Verdict(trace) == Some(Replied(rc, false))
                else if old(source) == Dialog then rc == Success || DialogSends(trace) == 3
                else rc == Denied && Verdict(trace).None?
    {
      hide Lawful, EnabledAfter, StoredSends, DialogSends, WipedIn, WipedBefore, Verdict, AskedIn, Steady, Talkative;
      RunningIsLast(trace);
      rc := Denied;
      if source == Dialog {
        if useExtracted && userpw.Some? && |userpw.value| > 0 {
          rc := SubmitStored(PasswordMethod);
          if rc == Gone { return; }
          useExtracted := false;
        } else {
          var gone := FinishClient();
          if gone { return Gone; }
          rc := KbdIntOrPassword();
          if rc == Gone { return; }
          DisablePassword();
        }
      } else if userpw.Some? && |userpw.value| > 0 {
        rc := SubmitStored(PasswordMethod);
        if rc == Gone { return; }
      }
      AbortThenWipe(rc);
    }

    method DisablePassword()
      requires Safe() && Running(trace).Some? && enabled == EnabledAfter(setup.enabled, trace)
      modifies this`enabled, this`trace
      ensures Flags() && enabled == old(enabled) - {Password} && SameRun()
    {
      enabled := enabled - {Password};
      Log(Disabled({Password}));
    }

    // ----- The dispatcher --------------------------------------------------------------

    ghost method Begin(m: Method)
      requires Valid() && Rule(setup, trace, Started(m))
      modifies this`trace
      ensures Valid() && Running(trace) == Some(m) && m in enabled && Verdict(trace).None?
      ensures m == Publickey ==> LastProbe(trace).None?
    {
      FirstProbe(setup, trace);
      OnlyOnce(setup, trace, Publickey);
      Log(Started(m));
    }

    /** What a method owes the trace when it ends. */
    ghost predicate Settled(m: Method, rc: Rc)
      reads this
    {
      && (m == SshAgent ==> enabled == {} && !Accepted(trace))
      && (m != SshAgent ==> (rc == Success <==> Accepted(trace)))
      && (m == Interactive && Verdict(trace) == Some(Replied(Denied, true)) ==> m !in enabled)
      && (m == Publickey || m == Hostbased ==> m !in enabled)
      && (m == Password ==> WipedIn(trace) && (WipedBefore(trace) ==> Password !in enabled))
    }

    ghost method End(m: Method, rc: Rc)
      requires Valid() && Running(trace) == Some(m) && rc != Gone && Settled(m, rc)
      modifies this`trace
      ensures Valid() && trace != [] && Last(trace) == Ended(m, rc)
      ensures Running(trace).None? && LastStart(trace) == Some(m)
    {
      RunningIsLast(trace);
      Log(Ended(m, rc));
    }

    /** One call of the active method. */
    method Run(m: Method) returns (rc: Rc)
      requires Valid() && Rule(setup, trace, Started(m))
      modifies this
      ensures Safe() && Uses() && active == old(active) && allowed == old(allowed)
      ensures rc == Gone ==> Running(trace).Some? && Lost()
      ensures rc != Gone ==> Valid() && trace != [] && Last(trace) == Ended(m, rc)
                             && Running(trace).None? && LastStart(trace) == Some(m)
    {
      hide Lawful, Rule, EnabledAfter, StoredSends, DialogSends, WipedIn, WipedBefore, Running, LastStart, Verdict;
      Begin(m);
      match m {
        case Publickey =>
          ghost var reached;
          rc, reached := AuthenticatePublickey();
        case SshAgent => rc := AuthenticateSshAgent();
        case Hostbased => rc := AuthenticateHostbased();
        case Interactive => rc := AuthenticateInteractive();
        case Password => rc := AuthenticatePassword();
      }
      if rc != Gone {
        End(m, rc);
      }
    }

    /** Keeps the active method while it is eligible, else finds the first eligible one. */
    method Select()
      modifies this`active
      ensures active.Some? ==> Chosen(setup.preferred, enabled, allowed, old(active), active.value)
      ensures active.None? ==> forall m :: m in setup.preferred ==> !Eligible(m, enabled, allowed)
    {
      if active.None? || WireOf(active.value) !in allowed || active.value !in enabled {
        active := None;
        var i := 0;
        while i < |setup.preferred|
          invariant 0 <= i <= |setup.preferred| && active.None?
          invariant forall j :: 0 <= j < i ==> !Eligible(setup.preferred[j], enabled, allowed)
        {
          var m := setup.preferred[i];
          if m in enabled {
            if WireOf(m) in allowed {
              active := Some(m);
              return;
            }
          }
          i := i + 1;
        }
      }
    }

    ghost method NoteOffer(offer: set<Wire>)
      requires Valid() && Running(trace).None? && Continues(trace)
      modifies this`trace
      ensures Valid() && Running(trace).None? && LastStart(trace) == old(LastStart(trace)) && LastOffer(trace) == offer
      ensures trace != [] && Last(trace) == Offered(offer)
    {
      Log(Offered(offer));
    }

    /** After its last event the dispatcher goes round. */
    ghost predicate Continues(t: Trace) {
      t != [] && Last(t).Ended? ==> Last(t).rc in {Denied, Partial, Error}
    }

    /** Nothing is left to try: no preferred method is enabled and offered, or the last one ended with a
        result that is neither a success nor a failure. */
    ghost predicate Exhausted(t: Trace) {
      && t != []
      && if Last(t).Offered? then forall m :: m in setup.preferred ==> !Eligible(m, EnabledAfter(setup.enabled, t), Last(t).offer)
         else Last(t).Ended? && Last(t).rc !in {Denied, Partial, Error, Success}
    }

    /** Runs methods in preferred order until one succeeds, none is left or a connection is gone. True
        is returned exactly when the last event of the trace is a method's success; while both ends stay
        connected, false is returned between methods only when nothing is left to try. */
    method Dispatch() returns (ok: bool)
      requires Valid() && trace == [] && active.None?
      modifies this
      ensures Safe()
      ensures Uses()
      ensures ok <==> trace != [] && Last(trace).Ended? && Last(trace).rc == Success
      ensures !ok && Steady(old(script)) && script != [] ==>
                if Running(trace).None? then Exhausted(trace) else !Talkative(old(script))
    {
      hide Lawful, EnabledAfter, StoredSends, DialogSends, WipedIn, WipedBefore, Chosen, Steady, Talkative, Eligible;
      while true
        invariant Valid() && Running(trace).None? && active == LastStart(trace)
        invariant Continues(trace) && Uses()
        decreases |script|
      {
        var reply, gone := Next();
        if gone { return false; }
        allowed := reply.offered;
        NoteOffer(allowed);
        if allowed == {} {
          assert forall m :: !Eligible(m, enabled, {}) by { NothingOffered(enabled); }
          return false;
        }
        Select();
        if active.None? { return false; }
        var rc := Run(active.value);
        if rc == Success { return true; }
        if rc != Denied && rc != Partial && rc != Error { return false; }
        reply, gone := Next();
        if gone || !reply.connected { return false; }
      }
    }

    /** The first reply, to a request without credentials, sends the dispatcher off. */
    predicate Dispatches(script: seq<Reply>) {
      script != [] && !script[0].exits && script[0].rc !in {Gone, Success, Error}
    }

    /** The whole authentication: a request without credentials first, then the dispatcher. */
    method Authenticate() returns (success: bool)
      requires Valid() && trace == [] && active.None?
      modifies this
      ensures Lawful(setup, trace)
      ensures StoredSends(trace) <= 1 && Starts(trace, Password) <= 2 && PasswordRequests(trace) <= 4
      ensures Starts(trace, Publickey) <= 1 && Starts(trace, SshAgent) <= 1
      ensures success ==> trace == [] || (Last(trace).Ended? && Last(trace).rc == Success)
      ensures trace != [] && Last(trace).Ended? && Last(trace).rc == Success ==> success
      ensures !Dispatches(old(script)) ==>
                trace == [] && (success <==> old(script) != [] && !old(script)[0].exits && old(script)[0].rc == Success)
      ensures Dispatches(old(script)) && !success && Steady(old(script)) && script != [] ==>
                if Running(trace).None? then Exhausted(trace) else !Talkative(old(script))
    {
      var reply, gone := Next();
      if gone {
        success := false;
      } else if reply.rc == Success {
        success := true;
      } else if reply.rc == Error {
        success := false;
      } else {
        success := Dispatch();
      }
      OnlyOnce(setup, trace, Publickey);
      OnlyOnce(setup, trace, SshAgent);
      AtMostTwice(setup, trace);
      RequestsAreSends(trace);
    }
  }
}
