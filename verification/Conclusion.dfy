/** What the client is told over a whole session, from the host key dialog to the login. */
module Conclusion {
  import TargetAuth
  import ClientAuth

  /** The conclusions asked for during the authentication against the target. */
  function Asked(t: TargetAuth.Trace): seq<bool> {
    if t == [] then []
    else Asked(TargetAuth.Init(t)) + if TargetAuth.Last(t).Finished? then [TargetAuth.Last(t).successful] else []
  }

  /** Each host key dialog asks for one before it; a login that succeeds asks for full success after it. */
  function SessionCalls(dialogs: nat, t: TargetAuth.Trace, entered: bool): seq<bool> {
    seq(dialogs, _ => false) + Asked(t) + if entered then [true] else []
  }

  lemma {:induction false} AskedInOrder(setup: TargetAuth.Setup, t: TargetAuth.Trace)
    requires TargetAuth.Lawful(setup, t)
    ensures ClientAuth.Ordered(Asked(t))
    ensures true in Asked(t) ==> exists i :: 0 <= i < |t| && t[i] == TargetAuth.Finished(true)
  {
    if t != [] {
      var before, last := TargetAuth.Init(t), TargetAuth.Last(t);
      TargetAuth.RuleAt(setup, t, |t| - 1);
      AskedInOrder(setup, before);
      if true in Asked(before) {
        var i :| 0 <= i < |before| && before[i] == TargetAuth.Finished(true);
        assert t[i] == before[i];
        TargetAuth.ConcludedMeansAgent(setup, t, i);
        assert t[|t| - 1] != TargetAuth.Finished(false);
      } else if last == TargetAuth.Finished(true) {
        assert t[|t| - 1] == TargetAuth.Finished(true);
      }
    }
  }

  /** Over every session - any number of host key dialogs, any lawful authentication against the target,
      with or without a login at its end - and whatever changes around it that does not take back what is
      authenticated: a client told of full success is never told less afterwards. */
  lemma SuccessIsNeverTakenBack(setup: TargetAuth.Setup, t: TargetAuth.Trace, dialogs: nat, entered: bool,
                                s: ClientAuth.Conclusion, acts: seq<ClientAuth.Act>)
    requires TargetAuth.Lawful(setup, t)
    requires ClientAuth.Sticky(s, acts) && ClientAuth.Calls(acts) == SessionCalls(dialogs, t, entered)
    ensures ClientAuth.NeverTakenBack(ClientAuth.Replies(s, acts))
    ensures ClientAuth.Times(ClientAuth.Replies(s, acts), ClientAuth.FullSuccess) <= 1
  {
    AskedInOrder(setup, t);
    ClientAuth.OrderedIsSafe(s, acts);
    ClientAuth.EachReplyOnce(s, acts);
  }
}
