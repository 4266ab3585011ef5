/** Target authentication through the client's SSH agent: an event loop that callbacks of the client's
    session may redirect at any poll, and inside every call that waits for the client. */
module Agent {
  import opened Bytes

  const AUTH_SUCCESS: int := 0
  const AUTH_ERROR: int := -1
  const MAX_ENVS: nat := 20
  const MAX_REMOTETCP: nat := 20

  datatype Option<T> = None | Some(value: T)

  datatype State = Start | Available | Ready | ChannelOpen | IdsReceived | SendClose | CloseSent | Complete | AtomAction | Error

  datatype Mode = InitSession | ShellMode | ExecMode | SubsystemMode

  /** What the client may do to the session; `allowed` is Chef's decision where one is asked for. */
  datatype Callback =
    | OpenSession
    | AuthAgent
    | Shell(allowed: bool)
    | Exec(command: string)
    | Subsystem(name: string)
    | Pty(term: string, cols: int, rows: int)
    | WindowChange(cols: int, rows: int)
    | Env(name: string, value: string)
    | X11(allowed: bool)
    | Data(bytes: seq<byte>)
    | Eof
    | Forward(address: string, port: nat, allowed: bool)
    | AgentClosed

  /** One wait of the environment: the callbacks that fire during it, and its results. */
  datatype Step = Step(events: seq<Callback>, error: bool, sessionOpen: bool, ok: bool, importable: bool, rc: int, count: nat)

  /** Exited: the gateway disconnected and ended; Pending: the script is over. */
  datatype Outcome = Returned(rc: int) | Exited | Pending

  // ----- What is recorded for the replay --------------------------------------------

  datatype Record = Record(mode: Mode, command: string, term: string, cols: int, rows: int, pty: bool,
                           envs: seq<(string, string)>, forwards: seq<(string, nat)>, x11: bool, data: seq<byte>, eof: bool)

  const NOTHING: Record := Record(InitSession, "", "", 0, 0, false, [], [], false, [], false)

  function Recorded(r: Record, event: Callback): Record {
    match event
    case Shell(allowed) => if allowed then r.(mode := ShellMode) else r
    case Exec(command) => r.(mode := ExecMode, command := command)
    case Subsystem(name) => r.(mode := SubsystemMode, command := name)
    case Pty(term, cols, rows) => r.(term := term, cols := cols, rows := rows, pty := true)
    case WindowChange(cols, rows) => r.(cols := cols, rows := rows)
    case Env(name, value) => if |r.envs| < MAX_ENVS then r.(envs := r.envs + [(name, value)]) else r
    case X11(allowed) => if allowed then r.(x11 := true) else r
    case Data(bytes) => r.(data := r.data + bytes)
    case Eof => r.(eof := true)
    case Forward(address, port, allowed) =>
      if |r.forwards| < MAX_REMOTETCP && allowed then r.(forwards := r.forwards + [(address, port)]) else r
    case _ => r
  }

  function AllRecorded(events: seq<Callback>): Record {
    if events == [] then NOTHING else Recorded(AllRecorded(events[..|events| - 1]), events[|events| - 1])
  }

  lemma RecordOneMore(events: seq<Callback>, event: Callback)
    ensures AllRecorded(events + [event]) == Recorded(AllRecorded(events), event)
    ensures AuthAgent in events + [event] <==> AuthAgent in events || event == AuthAgent
  {
    hide Recorded;
    assert (events + [event])[..|events|] == events;
  }

  function DataOf(events: seq<Callback>): seq<byte> {
    if events == [] then []
    else var e := events[|events| - 1];
         DataOf(events[..|events| - 1]) + if e.Data? then e.bytes else []
  }

  function EnvsOf(events: seq<Callback>): seq<(string, string)> {
    if events == [] then []
    else var e := events[|events| - 1];
         EnvsOf(events[..|events| - 1]) + if e.Env? then [(e.name, e.value)] else []
  }

  function ForwardsOf(events: seq<Callback>): seq<(string, nat)> {
    if events == [] then []
    else var e := events[|events| - 1];
         ForwardsOf(events[..|events| - 1]) + if e.Forward? && e.allowed then [(e.address, e.port)] else []
  }

  function First<T>(n: nat, s: seq<T>): seq<T> {
    if |s| <= n then s else s[..n]
  }

  lemma FirstAppend<T>(n: nat, s: seq<T>, x: T)
    ensures First(n, s + [x]) == if |First(n, s)| < n then First(n, s) + [x] else First(n, s)
  {
    if |s| >= n {
      assert (s + [x])[..n] == s[..n];
    }
  }

  /** The record is what the client asked for: all its data in order ... */
  lemma {:induction false} DataIsKept(events: seq<Callback>)
    ensures AllRecorded(events).data == DataOf(events)
  {
    if events != [] {
      DataIsKept(events[..|events| - 1]);
    }
  }

  /** ... the first twenty environment variables ... */
  lemma {:induction false} EnvsAreKept(events: seq<Callback>)
    ensures AllRecorded(events).envs == First(MAX_ENVS, EnvsOf(events))
  {
    hide First;
    if events == [] {
      FirstOfNothing<(string, string)>(MAX_ENVS);
    } else {
      var before, e := events[..|events| - 1], events[|events| - 1];
      EnvsAreKept(before);
      if e.Env? {
        FirstAppend(MAX_ENVS, EnvsOf(before), (e.name, e.value));
      } else {
        assert EnvsOf(events) == EnvsOf(before);
      }
    }
  }

  /** ... and the first twenty forwards among those that Chef allowed. */
  lemma {:induction false} ForwardsAreKept(events: seq<Callback>)
    ensures AllRecorded(events).forwards == First(MAX_REMOTETCP, ForwardsOf(events))
  {
    hide First;
    if events == [] {
      FirstOfNothing<(string, nat)>(MAX_REMOTETCP);
    } else {
      var before, e := events[..|events| - 1], events[|events| - 1];
      ForwardsAreKept(before);
      if e.Forward? && e.allowed {
        FirstAppend(MAX_REMOTETCP, ForwardsOf(before), (e.address, e.port));
      } else {
        assert ForwardsOf(events) == ForwardsOf(before);
      }
    }
  }

  lemma FirstOfNothing<T>(n: nat)
    ensures First<T>(n, []) == []
  {}

  // ----- The trace -----------------------------------------------------------------

  datatype Event =
    | Requested                       // an agent channel
    | Opened
    | Listed(count: nat)              // the agent's identities
    | Skipped(key: nat)               // its blob could not be imported
    | Probed(key: nat, accepted: bool)
    | SignedBy(key: nat)              // the agent's signature is here
    | Accepted(key: nat)              // the target accepted the signed key
    | Rejected(key: nat)
    | Closing
    | Closed                          // the client closed the agent channel
    | Replayed(record: Record)

  type Trace = seq<Event>

  function Init(t: Trace): Trace
    requires t != []
  {
    t[..|t| - 1]
  }

  function Last(t: Trace): Event
    requires t != []
  {
    t[|t| - 1]
  }

  function LastProbe(t: Trace): Option<Event> {
    if t == [] then None else if Last(t).Probed? then Some(Last(t)) else LastProbe(Init(t))
  }

  /** How many of the agent's identities have been gone through since they were listed. */
  function Reached(t: Trace): nat {
    if t == [] || Last(t).Listed? || Last(t).Requested? then 0
    else if Last(t).Probed? || Last(t).Skipped? then Last(t).key + 1
    else Reached(Init(t))
  }

  /** How many identities the agent has listed since its channel was requested. */
  function LastListed(t: Trace): nat {
    if t == [] || Last(t).Requested? then 0 else if Last(t).Listed? then Last(t).count else LastListed(Init(t))
  }

  /** The target would accept the last identity offered, but it has not been signed for and judged. */
  predicate Unjudged(t: Trace) {
    t != [] &&
    match Last(t)
    case Probed(_, accepted) => accepted
    case Accepted(_) => false
    case Rejected(_) => false
    case Listed(_) => false
    case Requested => false
    case _ => Unjudged(Init(t))
  }

  /** All identities listed were gone through, and none that the target would accept was left without a signature and its verdict. */
  predicate AllTried(t: Trace) {
    Reached(t) == LastListed(t) && !Unjudged(t)
  }

  predicate HasAccepted(t: Trace) {
    exists i :: 0 <= i < |t| && t[i].Accepted?
  }

  predicate Rule(t: Trace, e: Event) {
    && (t != [] ==> !Last(t).Replayed?)
    && match e
       case Listed(count) => Opened in t && 0 < count < 1024
       case Skipped(k) => k == Reached(t) < LastListed(t) && !Unjudged(t)
       case Probed(k, _) => k == Reached(t) < LastListed(t) && !Unjudged(t)
       case SignedBy(k) => LastProbe(t) == Some(Probed(k, true))
       case Accepted(k) => t != [] && Last(t) == SignedBy(k)
       case Rejected(k) => t != [] && Last(t) == SignedBy(k)
       case Closing => HasAccepted(t)
       case Closed => Closing in t
       case Replayed(_) => Closed in t
       case Requested => true
       case Opened => Requested in t
  }

  predicate Lawful(t: Trace) {
    t == [] || (Lawful(Init(t)) && Rule(Init(t), Last(t)))
  }

  lemma {:induction false} RuleAt(t: Trace, i: nat)
    requires Lawful(t) && i < |t|
    ensures Lawful(t[..i]) && Rule(t[..i], t[i])
  {
    if i < |t| - 1 {
      RuleAt(Init(t), i);
      assert Init(t)[..i] == t[..i];
    }
  }

  lemma ProbeStands(t: Trace)
    ensures LastProbe(t).Some? ==> LastProbe(t).value in t
  {
    if t != [] {
      ProbeStands(Init(t));
      assert forall e :: e in Init(t) ==> e in t;
    }
  }

  /** Replay starts only after the target accepted a key that it had first been offered without a
      signature and that the client's agent then signed. */
  lemma ReplayMeansAccepted(t: Trace, i: nat)
    requires Lawful(t) && i < |t| && t[i].Replayed?
    ensures exists a, k :: 0 < a < i && t[a] == Accepted(k) && t[a - 1] == SignedBy(k) && Probed(k, true) in t[..a]
    ensures i == |t| - 1
  {
    hide Lawful;
    RuleAt(t, i);
    var c :| 0 <= c < i && t[..i][c] == Closed;
    RuleAt(t, c);
    var s :| 0 <= s < c && t[..c][s] == Closing;
    RuleAt(t, s);
    var a :| 0 <= a < s && t[..s][a].Accepted?;
    assert t[..s][a] == t[a];
    AcceptedWasSigned(t, a);
    ReplayIsLast(t, i);
  }

  lemma AcceptedWasSigned(t: Trace, a: nat)
    requires Lawful(t) && a < |t| && t[a].Accepted?
    ensures 0 < a && t[a - 1] == SignedBy(t[a].key) && Probed(t[a].key, true) in t[..a]
  {
    hide Lawful;
    RuleAt(t, a);
    assert t[..a] != [] && Last(t[..a]) == t[a - 1];
    RuleAt(t, a - 1);
    ProbeStands(t[..a - 1]);
    assert forall e :: e in t[..a - 1] ==> e in t[..a];
  }

  lemma {:induction false} ReplayIsLast(t: Trace, i: nat)
    requires Lawful(t) && i < |t| && t[i].Replayed?
    ensures i == |t| - 1
  {
    if i < |t| - 1 {
      assert Init(t)[i] == t[i];
      ReplayIsLast(Init(t), i);
    }
  }

  /** The identities of one listing are offered in its order, none of them twice. */
  lemma OfferedInOrder(t: Trace, i: nat, j: nat)
    requires Lawful(t) && i < j < |t| && t[i].Probed? && t[j].Probed?
    requires forall k :: i < k < j ==> !t[k].Listed? && !t[k].Requested?
    ensures t[i].key < t[j].key < LastListed(t[..j])
  {
    RuleAt(t, j);
    OfferedSince(t[..j], i);
  }

  lemma {:induction false} OfferedSince(t: Trace, i: nat)
    requires Lawful(t) && i < |t| && t[i].Probed? && forall k :: i < k < |t| ==> !t[k].Listed? && !t[k].Requested?
    ensures t[i].key < Reached(t)
  {
    if i < |t| - 1 {
      assert Init(t)[i] == t[i] && !t[|t| - 1].Listed? && !t[|t| - 1].Requested?;
      OfferedSince(Init(t), i);
    }
  }

  /** An event of the current listing. */
  ghost predicate Since(t: Trace, i: int) {
    0 <= i < |t| && forall j :: i <= j < |t| ==> !t[j].Listed? && !t[j].Requested?
  }

  /** None is left out: each identity gone through was offered, unless it could not be imported. */
  lemma {:induction false} NoneLeftOut(t: Trace, k: nat)
    requires Lawful(t) && k < Reached(t)
    ensures exists i :: Since(t, i) && (t[i] == Skipped(k) || (t[i].Probed? && t[i].key == k))
  {
    var e := Last(t);
    if (e.Probed? || e.Skipped?) && e.key == k {
      assert Since(t, |t| - 1);
    } else {
      NoneLeftOut(Init(t), k);
      var i :| Since(Init(t), i) && (Init(t)[i] == Skipped(k) || (Init(t)[i].Probed? && Init(t)[i].key == k));
      assert t[i] == Init(t)[i] && Since(t, i);
    }
  }

  lemma AcceptedAppend(t: Trace, e: Event)
    ensures HasAccepted(t + [e]) <==> e.Accepted? || HasAccepted(t)
  {
    assert (t + [e])[|t|] == e && forall i :: 0 <= i < |t| ==> (t + [e])[i] == t[i];
  }

  /** The first polls fail before the client has opened a session channel. */
  predicate EarlyError(script: seq<Step>, waited: nat)
    decreases |script|
  {
    && script != []
    && (script[0].error || (waited < 3 && OpenSession !in script[0].events && EarlyError(script[1..], waited + 1)))
  }

  /** Where a callback leaves the machine: only the close that was waited for completes it. */
  function Redirected(state: State, event: Callback, armed: bool): State {
    match event
    case AuthAgent => Available
    case Shell(allowed) => if allowed then Ready else state
    case Exec(_) => Ready
    case Subsystem(_) => Ready
    case AgentClosed => if armed then Complete else state
    case _ => state
  }

  /** The callbacks set before the client's session channel is open. */
  function Early(events: seq<Callback>): seq<Callback> {
    if events == [] then []
    else var e := events[|events| - 1];
         Early(events[..|events| - 1]) + if e.OpenSession? || e.Forward? then [e] else []
  }

  lemma EarlyOneMore(events: seq<Callback>, e: Callback)
    ensures Early(events + [e]) == Early(events) + if e.OpenSession? || e.Forward? then [e] else []
  {
    assert (events + [e])[..|events|] == events;
  }

  lemma NoneEarly()
    ensures Early([]) == []
  {}

  function StateAfter(state: State, events: seq<Callback>, armed: bool): State {
    if events == [] then state
    else Redirected(StateAfter(state, events[..|events| - 1], armed), events[|events| - 1], armed)
  }

  lemma StateOneMore(state: State, events: seq<Callback>, event: Callback, armed: bool)
    ensures StateAfter(state, events + [event], armed) == Redirected(StateAfter(state, events, armed), event, armed)
  {
    assert (events + [event])[..|events|] == events;
  }

  lemma CloseCompletes(state: State)
    ensures StateAfter(state, [AgentClosed], true) == Complete
  {
    StateOneMore(state, [], AgentClosed, true);
    assert [] + [AgentClosed] == [AgentClosed];
  }

  // ----- Scripts that lead to the replay -------------------------------------------

  predicate Quiet(s: Step) {
    s.events == [] && s.ok
  }

  predicate Poll(s: Step) {
    s.events == [] && !s.error && s.sessionOpen
  }

  /** What is left of the script when the target has accepted one of the next `left` identities. */
  function AfterKeys(script: seq<Step>, left: nat): Option<seq<Step>> {
    if left == 0 || script == [] then None
    else if !script[0].importable || script[0].rc != AUTH_SUCCESS then AfterKeys(script[1..], left - 1)
    else if |script| < 3 || !Quiet(script[1]) then None
    else if script[2].rc == AUTH_SUCCESS then Some(script[3..])
    else AfterKeys(script[3..], left - 1)
  }

  lemma NoKeysLeft(script: seq<Step>)
    ensures AfterKeys(script, 0).None?
  {}

  /** From the poll before the callback is armed: the agent channel is closed, and the replay works. */
  predicate ClosesWell(script: seq<Step>) {
    |script| >= 3 && Poll(script[0]) && script[1].events == [AgentClosed] && script[2].ok
  }

  predicate KeysWork(script: seq<Step>, identities: nat) {
    |script| >= 1 && Poll(script[0]) && AfterKeys(script[1..], identities).Some?
    && ClosesWell(AfterKeys(script[1..], identities).value)
  }

  predicate ListsWell(script: seq<Step>) {
    |script| >= 2 && Poll(script[0]) && Quiet(script[1]) && 0 < script[1].count < 1024
    && KeysWork(script[2..], script[1].count)
  }

  /** From the first poll of the event loop: the client asks for agent forwarding and for its session. */
  predicate OpensWell(script: seq<Step>) {
    && |script| >= 2 && !script[0].error && script[0].sessionOpen
    && Shell(false) !in script[0].events && AuthAgent in script[0].events
    && StateAfter(Start, script[0].events, false) == Ready
    && Quiet(script[1]) && ListsWell(script[2..])
  }

  /** From the very start: a session channel first. */
  predicate GoesWell(script: seq<Step>) {
    script != [] && !script[0].error && OpenSession in script[0].events && OpensWell(script[1..])
  }

  // ----- The state machine ---------------------------------------------------------

  /** Polls of the client's session that neither fail nor find it closed. */
  predicate Polling(script: seq<Step>) {
    forall s :: s in script ==> !s.error && s.sessionOpen
  }

  /** The agent answers when it is asked for a channel and for its identities. */
  predicate Answering(script: seq<Step>) {
    forall s :: s in script ==> s.ok && 0 < s.count < 1024
  }

  predicate Importable(script: seq<Step>) {
    forall s :: s in script ==> s.importable
  }

  predicate Skips(t: Trace) {
    t != [] && (Last(t).Skipped? || Skips(Init(t)))
  }

  class Machine {
    var script: seq<Step>
    var state: State
    var sessionChannel: bool
    var armed: bool                 // the close callback is set on the agent channel
    var identities: nat
    var requestedAuthAgent: bool
    var record: Record
    ghost var trace: Trace
    ghost var delivered: seq<Callback>

    ghost predicate Valid()
      reads this
    {
      && Lawful(trace) && (trace != [] ==> !Last(trace).Replayed?)
      && record == AllRecorded(delivered)
      && (requestedAuthAgent <==> AuthAgent in delivered)
      && (state == ChannelOpen ==> Opened in trace && LastListed(trace) == 0)
      && (state == IdsReceived ==> 0 < identities == LastListed(trace) && trace != [] && Reached(trace) == 0 && !Unjudged(trace))
      && (state == SendClose ==> HasAccepted(trace))
      && (armed ==> Closing in trace)
      && (state == Complete ==> Closed in trace)
      && (trace != [] ==> requestedAuthAgent)
    }

    constructor (script: seq<Step>)
      ensures Valid() && trace == [] && delivered == [] && !sessionChannel && this.script == script
      ensures state == Start && !armed
    {
      this.script := script;
      state, sessionChannel, armed, identities, requestedAuthAgent := Start, false, false, 0, false;
      record, trace, delivered := NOTHING, [], [];
    }

    ghost method Log(e: Event)
      requires Lawful(trace) && Rule(trace, e)
      modifies this`trace
      ensures trace == old(trace) + [e] && Init(trace) == old(trace) && Last(trace) == e && Lawful(trace)
    {
      trace := trace + [e];
      assert Init(trace) == old(trace);
    }

    /** The script is used up from the front, and the trace only grows. */
    twostate predicate Goes()
      reads this
    {
      && |script| <= |old(script)| && old(trace) <= trace
      && (Polling(old(script)) ==> Polling(script)) && (Answering(old(script)) ==> Answering(script))
      && (Importable(old(script)) ==> Importable(script) && (!Skips(old(trace)) ==> !Skips(trace)))
    }

    /** Neither a channel nor identities wait to be used. */
    predicate Between()
      reads this`state
    {
      state != IdsReceived && state != ChannelOpen
    }

    /** What the callbacks leave alone. */
    twostate predicate Undisturbed()
      reads this
    {
      && old(trace) <= trace && (!Skips(old(trace)) ==> !Skips(trace)) && Unjudged(trace) == old(Unjudged(trace)) && LastProbe(trace) == old(LastProbe(trace)) && LastListed(trace) == old(LastListed(trace))
      && Reached(trace) == old(Reached(trace)) && (old(Between()) ==> Between())
      && (state == SendClose ==> old(state) == SendClose) && (state == State.Error ==> old(state) == State.Error)
    }

    /** Every event but the first and last: what the flags mean is not disturbed. */
    ghost method Note(e: Event)
      requires Valid() && Rule(trace, e) && !e.Replayed? && (e.Requested? ==> requestedAuthAgent)
      requires e.Listed? || e.Probed? || e.Skipped? || e.Requested? ==> Between()
      requires trace != [] || e.Requested?
      modifies this`trace
      ensures Valid() && trace == old(trace) + [e] && Init(trace) == old(trace) && Last(trace) == e
      ensures LastListed(trace) == if e.Requested? then 0 else if e.Listed? then e.count else old(LastListed(trace))
      ensures Unjudged(trace) == (if e.Probed? then e.accepted
                                  else if e.Accepted? || e.Rejected? || e.Listed? || e.Requested? then false else old(Unjudged(trace)))
      ensures Skips(trace) == (e.Skipped? || old(Skips(trace)))
      ensures LastProbe(trace) == if e.Probed? then Some(e) else old(LastProbe(trace))
      ensures Reached(trace) == if e.Listed? || e.Requested? then 0
                               else if e.Probed? || e.Skipped? then e.key + 1 else old(Reached(trace))
      ensures HasAccepted(trace) <==> e.Accepted? || old(HasAccepted(trace))
    {
      hide AllRecorded;
      Log(e);
      AcceptedAppend(old(trace), e);
    }

    /** The next wait, or none: the process waits forever. */
    method Next() returns (s: Step, over: bool)
      modifies this`script
      ensures |script| <= old(|script|) && (over ==> old(script) == []) && Goes()
      ensures !over ==> old(script) != [] && s == old(script)[0] && script == old(script)[1..] && |script| < |old(script)|
      ensures over <==> old(script) == []
      ensures !over && Importable(old(script)) ==> s.importable
      ensures !over && Polling(old(script)) ==> !s.error && s.sessionOpen
      ensures !over && Answering(old(script)) ==> s.ok && 0 < s.count < 1024
    {
      s := Step([], true, false, false, false, AUTH_ERROR, 0);
      over := script == [];
      if !over {
        s, script := script[0], script[1..];
      }
    }

    /** What a callback keeps for the replay. */
    method Keep(event: Callback)
      requires Valid()
      modifies this`requestedAuthAgent, this`record, this`delivered
      ensures Valid() && delivered == old(delivered) + [event] && record == Recorded(old(record), event)
      ensures requestedAuthAgent == (old(requestedAuthAgent) || event == AuthAgent)
    {
      hide Lawful, HasAccepted, LastListed, Recorded, AllRecorded;
      RecordOneMore(delivered, event);
      delivered := delivered + [event];
      record := Recorded(record, event);
      if event == AuthAgent {
        requestedAuthAgent := true;
      }
    }

    /** One callback. Gone: Chef denied the shell. */
    method Fire(event: Callback) returns (gone: bool)
      requires Valid()
      modifies this`state, this`sessionChannel, this`requestedAuthAgent, this`record, this`trace, this`delivered
      ensures Valid() && delivered == old(delivered) + [event] && requestedAuthAgent == (old(requestedAuthAgent) || event == AuthAgent)
      ensures trace == if event.AgentClosed? && armed then old(trace) + [Closed] else old(trace)
      ensures Undisturbed()
      ensures state == Redirected(old(state), event, armed) && record == Recorded(old(record), event)
      ensures gone <==> event == Shell(false)
      ensures sessionChannel == (old(sessionChannel) || event == OpenSession)
    {
      hide Lawful, HasAccepted, AllRecorded, Recorded, LastProbe, LastListed, Reached, Unjudged, Skips;
      gone := false;
      Keep(event);
      match event {
        case OpenSession => sessionChannel := true;
        case AuthAgent => state := Available;
        case Shell(ok) =>
          if ok {
            state := Ready;
          } else {
            gone := true;
          }
        case Exec(_) => state := Ready;
        case Subsystem(_) => state := Ready;
        case AgentClosed =>
          if armed {
            NoteClosed();
          }
        case _ =>
      }
    }

    method NoteClosed()
      requires Valid() && armed
      modifies this`state, this`trace
      ensures Valid() && state == Complete && trace == old(trace) + [Closed] && Init(trace) == old(trace) && Undisturbed()
    {
      hide AllRecorded;
      Log(Closed);
      state := Complete;
    }

    /** The callbacks that fire while the gateway waits. */
    method Deliver(events: seq<Callback>) returns (gone: bool)
      requires Valid()
      modifies this`state, this`sessionChannel, this`requestedAuthAgent, this`record, this`trace, this`delivered
      ensures Valid() && old(trace) <= trace
      ensures Undisturbed()
      ensures (old(sessionChannel) ==> sessionChannel) && (old(requestedAuthAgent) ==> requestedAuthAgent)
      ensures gone <==> Shell(false) in events
      ensures !gone ==> state == StateAfter(old(state), events, armed) && delivered == old(delivered) + events
      ensures !gone ==> requestedAuthAgent == (old(requestedAuthAgent) || AuthAgent in events)
    {
      hide Lawful, HasAccepted, AllRecorded, Recorded, Redirected, LastProbe, LastListed, Reached, Unjudged, Skips, Polling, Answering, Importable;
      var i := 0;
      while i < |events|
        invariant 0 <= i <= |events| && Valid() && Shell(false) !in events[..i]
        invariant Undisturbed() && state == StateAfter(old(state), events[..i], armed)
        invariant delivered == old(delivered) + events[..i]
        invariant (old(sessionChannel) ==> sessionChannel)
        invariant requestedAuthAgent == (old(requestedAuthAgent) || AuthAgent in events[..i])
      {
        StateOneMore(old(state), events[..i], events[i], armed);
        assert events[..i + 1] == events[..i] + [events[i]];
        gone := Fire(events[i]);
        if gone { return true; }
        i := i + 1;
      }
      assert events[..i] == events;
      gone := false;
    }

    /** A wait during which callbacks fire. Stop: the process exits, or waits forever. */
    method Wait() returns (s: Step, stop: Option<Outcome>)
      requires Valid()
      modifies this`script, this`state, this`sessionChannel, this`requestedAuthAgent, this`record, this`trace, this`delivered
      ensures Valid() && Goes()
      ensures Undisturbed()
      ensures (old(sessionChannel) ==> sessionChannel) && (old(requestedAuthAgent) ==> requestedAuthAgent)
      ensures stop.None? ==> |script| < old(|script|)
      ensures stop == if old(script) == [] then Some(Pending)
                      else if Shell(false) in old(script)[0].events then Some(Exited) else None
      ensures stop.None? && Polling(old(script)) ==> !s.error && s.sessionOpen
      ensures stop.None? && Answering(old(script)) ==> s.ok && 0 < s.count < 1024
      ensures stop.None? ==> s == old(script)[0] && script == old(script)[1..]
      ensures stop.None? ==> state == StateAfter(old(state), s.events, armed) && delivered == old(delivered) + s.events
      ensures stop.None? ==> requestedAuthAgent == (old(requestedAuthAgent) || AuthAgent in s.events)
    {
      var over;
      s, over := Next();
      if over {
        return s, Some(Pending);
      }
      var gone := Deliver(s.events);
      stop := if gone then Some(Exited) else None;
    }

    // ----- The actions -----------------------------------------------------------------

    /** Without the client's request for agent forwarding nothing is asked for. */
    method RequestChannel() returns (stop: Option<Outcome>)
      requires Valid() && sessionChannel
      modifies this
      ensures Valid() && sessionChannel && Goes()
      ensures stop.Some? ==> !stop.value.Returned?
      ensures !old(requestedAuthAgent) ==> stop.None? && state == State.Error && !requestedAuthAgent && trace == old(trace)
      ensures old(requestedAuthAgent) && stop.None? ==> old(script) != [] && LastListed(trace) == 0 && script == old(script)[1..]
      ensures stop.None? && Answering(old(script)) && old(requestedAuthAgent) ==> state == ChannelOpen
      ensures old(requestedAuthAgent) && stop.None? && old(script)[0].ok ==> state == ChannelOpen && Last(trace) == Opened
      ensures old(requestedAuthAgent) ==>
                stop == if old(script) == [] then Some(Pending)
                        else if Shell(false) in old(script)[0].events then Some(Exited) else None
    {
      hide Lawful, HasAccepted, AllRecorded, LastProbe, LastListed, Reached, Unjudged, Skips, Polling, Answering, Importable, StateAfter;
      state := State.Error;
      if !requestedAuthAgent {
        return None;
      }
      Ask();
      var s;
      s, stop := Wait();
      if stop.None? && s.ok {
        TakeChannel();
      }
    }

    method Ask()
      requires Valid() && requestedAuthAgent && Between()
      modifies this`trace
      ensures Valid() && Goes() && trace == old(trace) + [Requested] && LastListed(trace) == 0
      ensures Requested in trace
    {
      hide Lawful, HasAccepted, AllRecorded, LastProbe, LastListed, Reached, Unjudged, Skips, Polling, Answering, Importable;
      Note(Requested);
      assert trace[|trace| - 1] == Requested;
    }

    method TakeChannel()
      requires Valid() && requestedAuthAgent && Requested in trace && LastListed(trace) == 0
      modifies this`state, this`trace
      ensures Valid() && old(trace) <= trace && Skips(trace) == old(Skips(trace)) && LastListed(trace) == 0
      ensures Last(trace) == Opened && state == ChannelOpen
    {
      hide Lawful, HasAccepted, AllRecorded, LastProbe, LastListed, Reached, Unjudged, Skips;
      state := State.Error;
      Note(Opened);
      state := ChannelOpen;
    }

    /** An answer without identities ends the session; one with too many, or none at all, is an error. */
    method RequestIdentities() returns (stop: Option<Outcome>)
      requires Valid() && sessionChannel && Opened in trace && LastListed(trace) == 0
      modifies this
      ensures Valid() && sessionChannel && Goes()
      ensures stop.Some? ==> !stop.value.Returned?
      ensures stop == Some(Exited) <==>
                old(script) != [] && (Shell(false) in old(script)[0].events || (old(script)[0].ok && old(script)[0].count == 0))
      ensures stop.None? ==> old(script) != [] && script == old(script)[1..]
      ensures stop.None? && Answering(old(script)) ==> state == IdsReceived
      ensures stop.Some? ==> stop == Some(Exited) || old(script) == []
      ensures stop.None? && (!old(script)[0].ok || old(script)[0].count >= 1024) ==> LastListed(trace) == 0
      ensures stop.None? && old(script)[0].ok && old(script)[0].count < 1024 ==>
                state == IdsReceived && identities == old(script)[0].count && Last(trace) == Listed(identities)
    {
      hide Lawful, HasAccepted, AllRecorded, LastProbe, LastListed, Reached, Unjudged, Skips, Polling, Answering, Importable;
      state := State.Error;
      var s;
      s, stop := Wait();
      if stop.None? && s.ok {
        if s.count == 0 {
          return Some(Exited);
        }
        if s.count < 1024 {
          TakeIdentities(s.count);
        }
      }
    }

    method TakeIdentities(count: nat)
      requires Valid() && Opened in trace && 0 < count < 1024
      modifies this`state, this`identities, this`trace
      ensures Valid() && old(trace) <= trace && Skips(trace) == old(Skips(trace)) && Last(trace) == Listed(count)
      ensures identities == count && state == IdsReceived
    {
      hide Lawful, HasAccepted, AllRecorded, LastProbe;
      state := State.Error;
      Note(Listed(count));
      identities := count;
      state := IdsReceived;
    }

    /** Offers the identities one by one; the first that the target would accept is signed by the agent. It
        ends with a key that the target accepted, or with none left. */
    method AuthenticateTarget() returns (stop: Option<Outcome>)
      requires Valid() && sessionChannel && identities == LastListed(trace) && trace != []
      requires Reached(trace) == 0 && !Unjudged(trace)
      modifies this
      ensures Valid() && sessionChannel && Goes()
      ensures stop.Some? ==> !stop.value.Returned?
      ensures stop.None? ==> if state == SendClose then Last(trace).Accepted? else AllTried(trace) && Between()
      ensures stop.None? ==> LastListed(trace) == old(identities)
      ensures stop == Some(Pending) ==> script == []
      ensures var rest := AfterKeys(old(script), old(identities));
              rest.Some? ==> stop.None? && state == SendClose && script == rest.value
    {
      hide AfterKeys, Lawful, HasAccepted, AllRecorded, LastProbe, LastListed, Reached, Unjudged, Skips, Polling, Answering, Importable;
      state := State.Error;
      stop := None;
      var k, rc := 0, AUTH_ERROR;
      while k < identities && rc != AUTH_SUCCESS
        invariant Valid() && sessionChannel && Goes() && Between()
        invariant identities == LastListed(trace) == old(identities) && trace != []
        invariant Reached(trace) == k <= identities && !Unjudged(trace)
        invariant AfterKeys(old(script), old(identities)).Some? ==>
                    AfterKeys(old(script), old(identities)) == if rc == AUTH_SUCCESS then Some(script) else AfterKeys(script, identities - k)
        invariant stop.None? && (if rc == AUTH_SUCCESS then state == SendClose && Last(trace).Accepted? else state != SendClose)
        decreases identities - k
      {
        rc, stop := Offer(k, rc);
        if stop.Some? { return; }
        k := k + 1;
      }
      NoKeysLeft(script);
    }

    /** One identity. */
    method Offer(k: nat, last: int) returns (rc: int, stop: Option<Outcome>)
      requires Valid() && sessionChannel && trace != [] && Between() && state != SendClose
      requires Reached(trace) == k < LastListed(trace) == identities && !Unjudged(trace) && last != AUTH_SUCCESS
      modifies this
      ensures Valid() && sessionChannel && Goes() && Between() && trace != []
      ensures LastListed(trace) == old(LastListed(trace)) && identities == old(identities)
      ensures stop.Some? ==> !stop.value.Returned? && (stop == Some(Pending) ==> script == [])
      ensures stop.None? ==> !Unjudged(trace) && old(script) != [] && Reached(trace) == k + 1
      ensures stop.None? ==> old(trace) + [if old(script)[0].importable then Probed(k, old(script)[0].rc == AUTH_SUCCESS)
                                           else Skipped(k)] <= trace
      ensures stop.None? ==> if rc == AUTH_SUCCESS then state == SendClose && Last(trace) == Accepted(k) else state != SendClose
      ensures var rest := AfterKeys(old(script), old(identities) - k);
              rest.Some? ==> stop.None? && rest == if rc == AUTH_SUCCESS then Some(script) else AfterKeys(script, identities - k - 1)
      ensures stop.None? && !(old(script)[0].importable && old(script)[0].rc == AUTH_SUCCESS) ==> rc != AUTH_SUCCESS
    {
      hide Lawful, HasAccepted, AllRecorded, LastProbe, LastListed, Reached, Unjudged, Skips, Polling, Answering, Importable;
      rc, stop := last, None;
      var s, over := Next();
      if over { return rc, Some(Pending); }
      if s.importable {
        rc := s.rc;
        Note(Probed(k, rc == AUTH_SUCCESS));
      } else {
        Note(Skipped(k));
      }
      if rc == AUTH_SUCCESS {
        rc, stop := SignAndSend(k);
      }
    }

    /** The agent signs, and the target judges the signed key. Without a signature the session ends. */
    method SignAndSend(k: nat) returns (rc: int, stop: Option<Outcome>)
      requires Valid() && sessionChannel && LastProbe(trace) == Some(Probed(k, true)) && trace != []
      requires Between() && state != SendClose
      modifies this
      ensures Valid() && sessionChannel && Goes() && Between()
      ensures LastListed(trace) == old(LastListed(trace)) && identities == old(identities) && Reached(trace) == old(Reached(trace))
      ensures stop.Some? ==> !stop.value.Returned? && (stop == Some(Pending) ==> script == [])
      ensures stop.None? ==> !Unjudged(trace)
      ensures |old(script)| >= 2 && Quiet(old(script)[0]) ==>
                stop.None? && rc == old(script)[1].rc && script == old(script)[2..]
      ensures stop.None? ==> if rc == AUTH_SUCCESS then state == SendClose && Last(trace) == Accepted(k) else state != SendClose
    {
      hide Lawful, HasAccepted, AllRecorded, LastProbe, LastListed, Reached, Unjudged, Skips, Polling, Answering, Importable;
      rc := AUTH_ERROR;
      var s;
      s, stop := Wait();
      if stop.Some? { return; }
      if !s.ok {
        return rc, Some(Exited);
      }
      Note(SignedBy(k));
      rc, stop := SendSigned(k);
    }

    /** The target's verdict on the signed key. */
    method SendSigned(k: nat) returns (rc: int, stop: Option<Outcome>)
      requires Valid() && trace != [] && Last(trace) == SignedBy(k)
      modifies this`script, this`state, this`trace
      ensures Valid() && Goes() && (old(Between()) ==> Between())
      ensures LastListed(trace) == old(LastListed(trace)) && Reached(trace) == old(Reached(trace))
      ensures stop == if old(script) == [] then Some(Pending) else None
      ensures stop.Some? ==> script == []
      ensures stop.None? ==> rc == old(script)[0].rc && !Unjudged(trace) && script == old(script)[1..]
      ensures stop.None? ==> if rc == AUTH_SUCCESS then state == SendClose && Last(trace) == Accepted(k)
                             else state == old(state) && Last(trace) == Rejected(k)
    {
      hide Lawful, HasAccepted, AllRecorded, LastProbe, LastListed, Reached, Unjudged, Skips, Polling, Answering, Importable;
      var s, over := Next();
      if over {
        return AUTH_ERROR, Some(Pending);
      }
      rc, stop := s.rc, None;
      Note(if rc == AUTH_SUCCESS then Accepted(k) else Rejected(k));
      if rc == AUTH_SUCCESS {
        state := SendClose;
      }
    }

    /** Sets the close callback, then closes; the client's close may arrive at once. */
    method CloseAgentChannel() returns (stop: Option<Outcome>)
      requires Valid() && sessionChannel && HasAccepted(trace) && trace != []
      modifies this
      ensures Valid() && sessionChannel && Goes()
      ensures stop.Some? ==> !stop.value.Returned?
      ensures stop.None? ==> (state == Complete || state == CloseSent) && old(script) != [] && script == old(script)[1..]
      ensures old(script) != [] && old(script)[0].events == [AgentClosed] ==> stop.None? && state == Complete
    {
      hide Lawful, HasAccepted, AllRecorded, LastProbe, LastListed, Reached, Unjudged, Skips, Polling, Answering, Importable, StateAfter;
      Arm();
      var s;
      s, stop := Wait();
      CloseCompletes(AtomAction);
      if stop.None? && state != Complete {
        state := CloseSent;
      }
    }

    /** From here on a close of the agent channel completes the machine. */
    method Arm()
      requires Valid() && HasAccepted(trace) && trace != []
      modifies this`state, this`trace, this`armed
      ensures Valid() && Goes() && trace == old(trace) + [Closing] && state == AtomAction && armed
    {
      hide Lawful, HasAccepted, AllRecorded, LastProbe, LastListed, Reached, Unjudged, Skips, Polling, Answering, Importable;
      state := AtomAction;
      Note(Closing);
      armed := true;
    }

    // ----- The loops -------------------------------------------------------------------

    /** What the C function returns when it returns a truth value as its result. */
    function AsResult(b: bool): int {
      if b then 1 else 0
    }

    /** Waits for a session channel; the session ends with the fourth poll that brings none. */
    method AwaitSession() returns (stop: Option<Outcome>)
      requires Valid() && trace == [] && !sessionChannel
      modifies this
      ensures Valid() && trace == [] && Goes() && state == old(state)
      ensures stop.None? ==> sessionChannel
      ensures old(script) != [] && OpenSession in old(script)[0].events && !old(script)[0].error ==>
                stop.None? && script == old(script)[1..]
      ensures stop == Some(Returned(AUTH_SUCCESS)) <==> EarlyError(old(script), 0)
      ensures stop.Some? && stop.value.Returned? ==> stop.value.rc == AUTH_SUCCESS
    {
      hide Lawful, AllRecorded;
      var waited := 0;
      while !sessionChannel
        invariant Valid() && trace == [] && Goes() && state == old(state) && 0 <= waited <= 3
        invariant waited == 0 ==> script == old(script) && !sessionChannel
        invariant waited > 0 ==> old(script) != []
        invariant waited > 0 && OpenSession in old(script)[0].events ==> waited == 1 && sessionChannel && script == old(script)[1..]
        invariant EarlyError(old(script), 0) <==> !sessionChannel && EarlyError(script, waited)
        decreases |script|, !sessionChannel
      {
        var s, over := Next();
        if over {
          return Some(Pending);
        }
        FirstCallbacks(s.events);
        if s.error {
          return Some(Returned(AsResult(false)));
        }
        waited := waited + 1;
        if waited > 3 {
          return Some(Exited);
        }
      }
      stop := None;
    }

    /** Only channel requests and forwards have callbacks yet. */
    method FirstCallbacks(events: seq<Callback>)
      requires Valid() && trace == []
      modifies this`state, this`sessionChannel, this`requestedAuthAgent, this`record, this`trace, this`delivered
      ensures Valid() && trace == [] && state == old(state)
      ensures sessionChannel <==> old(sessionChannel) || OpenSession in events
      ensures delivered == old(delivered) + Early(events)
    {
      hide Lawful, AllRecorded, Recorded, Early, HasAccepted, LastListed, Reached, Unjudged, Skips, LastProbe;
      var i := 0;
      NoneEarly();
      while i < |events|
        invariant 0 <= i <= |events| && Valid() && trace == [] && state == old(state)
        invariant sessionChannel <==> old(sessionChannel) || OpenSession in events[..i]
        invariant delivered == old(delivered) + Early(events[..i])
      {
        assert events[..i + 1] == events[..i] + [events[i]];
        EarlyOneMore(events[..i], events[i]);
        if events[i].OpenSession? || events[i].Forward? {
          var gone := Fire(events[i]);
        }
        i := i + 1;
      }
      assert events[..i] == events;
    }

    /** An error after the poll: nothing was asked of the agent, or all it listed was tried. */
    ghost predicate TriedAll(answering: bool)
      reads this
    {
      !requestedAuthAgent || ((LastListed(trace) > 0 ==> AllTried(trace)) && (answering ==> LastListed(trace) > 0))
    }

    /** One round of the event loop after its poll: every state has its action. */
    method Act() returns (stop: Option<Outcome>)
      requires Valid() && sessionChannel
      modifies this
      ensures Valid() && sessionChannel && Goes()
      ensures stop.Some? ==> !stop.value.Returned?
      ensures stop.None? && state == State.Error && old(state) != State.Error ==> TriedAll(Answering(old(script)))
      ensures old(state) == Ready && old(requestedAuthAgent) && old(script) != [] && Quiet(old(script)[0]) ==>
                stop.None? && state == ChannelOpen && script == old(script)[1..]
      ensures old(state) == ChannelOpen && old(script) != [] && Quiet(old(script)[0]) && 0 < old(script)[0].count < 1024 ==>
                stop.None? && state == IdsReceived && identities == old(script)[0].count && script == old(script)[1..]
      ensures old(state) == IdsReceived && stop.None? ==> if state == SendClose then Last(trace).Accepted? else AllTried(trace)
      ensures old(state) == IdsReceived && AfterKeys(old(script), old(identities)).Some? ==>
                stop.None? && state == SendClose && script == AfterKeys(old(script), old(identities)).value
      ensures old(state) == SendClose && old(script) != [] && old(script)[0].events == [AgentClosed] ==>
                stop.None? && state == Complete && script == old(script)[1..]
    {
      hide Lawful, AllRecorded, LastProbe, LastListed, Reached, Unjudged, AllTried, Skips, Polling, Answering, Importable, AfterKeys;
      stop := None;
      match state {
        case Ready =>
          state := AtomAction;
          stop := RequestChannel();
        case ChannelOpen =>
          state := AtomAction;
          stop := RequestIdentities();
        case IdsReceived =>
          state := AtomAction;
          stop := AuthenticateTarget();
        case SendClose =>
          stop := CloseAgentChannel();
        case Complete => armed := false;
        case _ =>
      }
    }

    /** From the end of the client's own authentication to the replay on the target. The result is 0,
        which is success, exactly when the session was replayed - or when polling failed before the client
        had opened a session channel: there the C code returns a truth value where a code is expected. A
        script that goes well ends in the replay. While no poll fails, an error after identities were
        listed means that all of them were tried; if the agent always answers, that they were listed. */
    method ClientReady() returns (end: Outcome)
      requires Valid() && trace == [] && !sessionChannel && state == Start
      modifies this
      ensures Lawful(trace) && record == AllRecorded(delivered)
      ensures end == Returned(AUTH_SUCCESS) <==> EarlyError(old(script), 0) || (trace != [] && Last(trace).Replayed?)
      ensures EarlyError(old(script), 0) ==> trace == []
      ensures trace != [] && Last(trace).Replayed? ==> Last(trace).record == record
      ensures end.Returned? ==> end.rc == AUTH_SUCCESS || (end.rc == AUTH_ERROR && AuthAgent in delivered)
      ensures !old(armed) && GoesWell(old(script)) ==> end == Returned(AUTH_SUCCESS) && trace != [] && Last(trace).Replayed?
      ensures end == Returned(AUTH_ERROR) && Polling(old(script)) ==>
                (LastListed(trace) > 0 ==> AllTried(trace)) && (Answering(old(script)) ==> LastListed(trace) > 0)
      ensures Importable(old(script)) ==> !Skips(trace)
    {
      hide OpensWell, AfterKeys, AllTried, LastListed, Polling, Answering, Importable, Lawful, AllRecorded;
      var stop := AwaitSession();
      if stop.Some? {
        return stop.value;
      }
      end := RunSession();
    }

    /** Where a script that goes well has brought the machine when it polls. */
    ghost predicate OnTrack()
      reads this
    {
      match state
      case Start => !armed && OpensWell(script)
      case ChannelOpen => requestedAuthAgent && ListsWell(script)
      case IdsReceived => requestedAuthAgent && KeysWork(script, identities)
      case SendClose => requestedAuthAgent && ClosesWell(script)
      case Complete => requestedAuthAgent && script != [] && script[0].ok
      case _ => false
    }

    /** One round: the poll and its action. */
    method Round() returns (stop: Option<Outcome>)
      requires Valid() && sessionChannel && state != State.Error
      modifies this
      ensures Valid() && sessionChannel && Goes() && (stop.None? ==> |script| < |old(script)|)
      ensures stop.Some? ==> !stop.value.Returned?
      ensures old(OnTrack()) && old(state) != Complete ==> stop.None? && OnTrack() && state != Start
      ensures stop.None? && state == State.Error && Polling(old(script)) ==> TriedAll(Answering(old(script)))
    {
      hide Lawful, HasAccepted, AllRecorded, AfterKeys, AllTried, LastListed, Polling, Answering, Importable, Reached, Skips,
           Unjudged, LastProbe;
      hide StateAfter;
      stop := PollClient();
      if stop.None? {
        stop := Act();
      }
    }

    /** The poll of the client's session. */
    method PollClient() returns (stop: Option<Outcome>)
      requires Valid() && sessionChannel && state != State.Error
      modifies this
      ensures Valid() && sessionChannel && Goes() && armed == old(armed) && identities == old(identities)
      ensures stop.Some? ==> !stop.value.Returned?
      ensures stop == if old(script) == [] then Some(Pending)
                      else if Shell(false) in old(script)[0].events then Some(Exited) else None
      ensures stop.None? ==> var s := old(script)[0];
                && script == old(script)[1..]
                && state == (if s.error || !s.sessionOpen then State.Error else StateAfter(old(state), s.events, armed))
                && requestedAuthAgent == (old(requestedAuthAgent) || AuthAgent in s.events)
      ensures stop.None? && Poll(old(script)[0]) ==> state == old(state)
      ensures stop.None? && Polling(old(script)) ==> state != State.Error
    {
      hide Lawful, HasAccepted, AllRecorded, LastListed, Polling, Answering, Importable, Reached, Skips, Unjudged, LastProbe;
      var s;
      s, stop := Wait();
      if stop.None? && (s.error || !s.sessionOpen) {
        state := State.Error;
      }
    }

    method RunSession() returns (end: Outcome)
      requires Valid() && sessionChannel && trace == [] && state == Start
      modifies this
      ensures Lawful(trace) && record == AllRecorded(delivered)
      ensures end == Returned(AUTH_SUCCESS) <==> trace != [] && Last(trace).Replayed?
      ensures trace != [] && Last(trace).Replayed? ==> Last(trace).record == record
      ensures end.Returned? ==> end.rc == AUTH_SUCCESS || (end.rc == AUTH_ERROR && AuthAgent in delivered)
      ensures !old(armed) && OpensWell(old(script)) ==> end == Returned(AUTH_SUCCESS)
      ensures end == Returned(AUTH_ERROR) && Polling(old(script)) ==>
                (LastListed(trace) > 0 ==> AllTried(trace)) && (Answering(old(script)) ==> LastListed(trace) > 0)
      ensures Importable(old(script)) ==> !Skips(trace)
    {
      hide Lawful, HasAccepted, AllRecorded, AllTried, LastListed, Polling, Answering, Importable, OpensWell, ListsWell, KeysWork,
           ClosesWell;
      var rc := AUTH_ERROR;
      var first := true;
      while first || (state != Complete && state != State.Error)
        invariant Valid() && sessionChannel && Goes() && (first ==> state == Start)
        invariant !old(armed) && OpensWell(old(script)) ==> OnTrack()
        invariant state == State.Error && Polling(old(script)) ==> TriedAll(Answering(old(script)))
        decreases |script|
      {
        first := false;
        var stop := Round();
        if stop.Some? {
          return stop.value;
        }
      }
      if state == Complete {
        var s, over := Next();
        if over {
          return Pending;
        }
        if !s.ok {
          return Exited;
        }
        Log(Replayed(record));
        rc := AUTH_SUCCESS;
      }
      if !requestedAuthAgent {
        return Exited;
      }
      return Returned(rc);
    }
  }

  /** The early return, concretely: the first poll fails, no key has been offered, and the result is
      the code for success. */
  method SuccessWithoutKey() returns (end: Outcome, ghost trace: Trace)
    ensures end == Returned(AUTH_SUCCESS) && trace == []
  {
    var s := Step([], true, false, false, false, AUTH_ERROR, 0);
    var m := new Machine([s]);
    assert EarlyError([s], 0);
    end := m.ClientReady();
    trace := m.trace;
  }

  /** A script that goes well, concretely: the target refuses the first of two identities, would accept the
      second, and accepts it with the agent's signature. */
  method SecondKeyWins() returns (end: Outcome, ghost trace: Trace)
    ensures end == Returned(AUTH_SUCCESS) && trace != [] && Last(trace).Replayed?
  {
    var poll := Step([], false, true, true, true, AUTH_ERROR, 2);
    var accept := poll.(rc := AUTH_SUCCESS);
    var keys := [poll, accept, poll, accept];
    var close := [poll, poll.(events := [AgentClosed]), poll];
    var script := [poll.(events := [OpenSession]), poll.(events := [AuthAgent, Exec("id")]), poll, poll, poll, poll] + keys + close;
    ExecStarts("id");
    assert script[1..][2..][2..] == [poll] + keys + close;
    assert ([poll] + keys + close)[1..] == keys + close;
    SecondKey(keys + close, close);
    var m := new Machine(script);
    end := m.ClientReady();
    trace := m.trace;
  }

  lemma ExecStarts(command: string)
    ensures StateAfter(Start, [AuthAgent, Exec(command)], false) == Ready
  {
    StateOneMore(Start, [AuthAgent], Exec(command), false);
    assert [AuthAgent] + [Exec(command)] == [AuthAgent, Exec(command)];
  }

  lemma SecondKey(script: seq<Step>, rest: seq<Step>)
    requires |script| >= 4 && script[4..] == rest
    requires script[0].rc != AUTH_SUCCESS && script[1].importable && script[1].rc == AUTH_SUCCESS
    requires Quiet(script[2]) && script[3].rc == AUTH_SUCCESS
    ensures AfterKeys(script, 2) == Some(rest)
  {
    var next := script[1..];
    assert AfterKeys(script, 2) == AfterKeys(next, 1);
    assert next[3..] == rest;
  }
}
