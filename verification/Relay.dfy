/** The proxy's relay between gateway and target: one poll loop, two buffers, arbitrary
    poll results, partial sends and closes. */
module Relay {
  import opened Bytes

  const CHUNK_SIZE: nat := 16384

  /** What recv(2) answers, and whether libssh could grow its buffer for the data. */
  datatype Recv = Closed | Data(bytes: seq<byte>, stored: bool) | WouldBlock | Failed {
    predicate Valid() { Data? ==> 0 < |bytes| <= CHUNK_SIZE }
  }

  /** How many bytes send(2) is willing to take; 0 stands for an error. */
  type Send = nat

  datatype Poll = Error | Timeout | Ready(gatewayIn: bool, gatewayOut: bool, targetIn: bool, targetOut: bool)

  /** Everything the outside world may answer during one pass of the loop. */
  datatype Turn = Turn(poll: Poll, signalled: bool,
                       fromTarget: Recv, toGateway: Send, fromGateway: Recv, toTarget: Send)
  {
    predicate Valid() { fromTarget.Valid() && fromGateway.Valid() }
  }

  // ----- What the loop computes ----------------------------------------------------

  /** One direction: all bytes read from the source, the ones still buffered, all bytes written to
      the sink, and those read but lost because the buffer could not grow. */
  datatype Flow = Flow(received: seq<byte>, buffered: seq<byte>, sent: seq<byte>, lost: seq<byte>) {
    function Receive(r: Recv): (Flow, bool) {
      match r
      case Data(bytes, true) => (this.(received := received + bytes, buffered := buffered + bytes), true)
      case Data(bytes, false) => (this.(received := received + bytes, lost := lost + bytes), false)
      case WouldBlock => (this, true)
      case _ => (this, false)
    }

    function Accepted(limit: Send): nat {
      if limit <= |buffered| then limit else |buffered|
    }

    function Transmit(limit: Send): (Flow, bool) {
      var n := Accepted(limit);
      (this.(buffered := buffered[n..], sent := sent + buffered[..n]), buffered == [] || n > 0)
    }
  }

  datatype Link = Link(toGateway: Flow, toTarget: Flow, heard: bool,
                       gatewayClosed: bool, targetClosed: bool, proxyClosed: bool)
  {
    predicate Closed() { gatewayClosed || targetClosed || proxyClosed }

    function ReadTarget(r: Recv): Link {
      var (flow, ok) := toGateway.Receive(r);
      this.(toGateway := flow, targetClosed := targetClosed || !ok)
    }

    function WriteGateway(s: Send): Link {
      var (flow, ok) := toGateway.Transmit(s);
      this.(toGateway := flow, gatewayClosed := gatewayClosed || !ok)
    }

    function ReadGateway(r: Recv): Link {
      var (flow, ok) := toTarget.Receive(r);
      this.(toTarget := flow, heard := heard || ok, gatewayClosed := gatewayClosed || !ok)
    }

    function WriteTarget(s: Send): Link {
      var (flow, ok) := toTarget.Transmit(s);
      this.(toTarget := flow, targetClosed := targetClosed || !ok)
    }

    /** The pass goes on to the sockets. */
    predicate Proceeds(t: Turn) {
      t.poll.Ready? && !t.signalled && !Closed()
    }

    function Pass(t: Turn): Link
      requires t.poll.Ready?
    {
      var a := if t.poll.targetIn then ReadTarget(t.fromTarget) else this;
      var b := if t.poll.gatewayOut && a.heard then a.WriteGateway(t.toGateway) else a;
      var c := if t.poll.gatewayIn then b.ReadGateway(t.fromGateway) else b;
      if t.poll.targetOut then c.WriteTarget(t.toTarget) else c
    }
  }

  /** The loop over a run of turns; it stops for good at the first turn that does not proceed. */
  function Loop(link: Link, turns: seq<Turn>): Link
    decreases |turns|
  {
    if turns == [] then link
    else if link.Proceeds(turns[0]) then Loop(link.Pass(turns[0]), turns[1..])
    else if turns[0].poll.Ready? && !turns[0].signalled then link
    else link.(proxyClosed := true)
  }

  const Fresh: Link := Link(Flow([], [], [], []), Flow([], [], [], []), false, false, false, false)

  // ----- Properties over whole runs ------------------------------------------------

  /** No byte is invented, reordered, duplicated or lost without the link being closed. */
  ghost predicate Conserves(flow: Flow, sourceClosed: bool) {
    && flow.sent + flow.buffered + flow.lost == flow.received
    && (flow.lost != [] ==> sourceClosed)
  }

  ghost predicate Sound(link: Link) {
    && Conserves(link.toGateway, link.targetClosed)
    && Conserves(link.toTarget, link.gatewayClosed)
    && (link.toGateway.sent != [] ==> link.heard)
  }

  lemma ReceiveConserves(flow: Flow, closed: bool, r: Recv)
    requires Conserves(flow, closed) && !closed
    ensures Conserves(flow.Receive(r).0, !flow.Receive(r).1)
  {
    if r.Data? {
      assert flow.sent + (flow.buffered + r.bytes) + flow.lost == flow.received + r.bytes;
      assert flow.sent + flow.buffered + (flow.lost + r.bytes) == flow.received + r.bytes;
    }
  }

  lemma TransmitConserves(flow: Flow, closed: bool, s: Send)
    requires Conserves(flow, closed)
    ensures Conserves(flow.Transmit(s).0, closed)
  {
    var n := flow.Accepted(s);
    assert flow.buffered == flow.buffered[..n] + flow.buffered[n..];
    assert flow.sent + flow.buffered[..n] + flow.buffered[n..] + flow.lost == flow.sent + flow.buffered + flow.lost;
  }

  lemma PassIsSound(link: Link, t: Turn)
    requires Sound(link) && link.Proceeds(t)
    ensures Sound(link.Pass(t))
  {
    ReceiveConserves(link.toGateway, false, t.fromTarget);
    var a := if t.poll.targetIn then link.ReadTarget(t.fromTarget) else link;
    TransmitConserves(a.toGateway, a.targetClosed, t.toGateway);
    var b := if t.poll.gatewayOut && a.heard then a.WriteGateway(t.toGateway) else a;
    assert b.toTarget == link.toTarget;
    ReceiveConserves(b.toTarget, false, t.fromGateway);
    var c := if t.poll.gatewayIn then b.ReadGateway(t.fromGateway) else b;
    TransmitConserves(c.toTarget, c.gatewayClosed, t.toTarget);
  }

  lemma {:induction false} LoopIsSound(link: Link, turns: seq<Turn>)
    requires Sound(link)
    ensures Sound(Loop(link, turns))
    decreases |turns|
  {
    if turns != [] && link.Proceeds(turns[0]) {
      PassIsSound(link, turns[0]);
      LoopIsSound(link.Pass(turns[0]), turns[1..]);
    }
  }

  /** For every run: in each direction the bytes written are a prefix of the bytes read at the other
      side, what is missing is exactly what is still buffered (plus what was lost when a buffer could
      not grow, after which that side is closed), and nothing reaches the gateway before a receive
      from the gateway has succeeded. */
  lemma FifoConservation(turns: seq<Turn>)
    ensures var r := Loop(Fresh, turns);
            && Sound(r)
            && r.toGateway.sent <= r.toGateway.received
            && r.toTarget.sent <= r.toTarget.received
  {
    LoopIsSound(Fresh, turns);
    var r := Loop(Fresh, turns);
    PrefixOfSum(r.toGateway.sent, r.toGateway.buffered, r.toGateway.lost);
    PrefixOfSum(r.toTarget.sent, r.toTarget.buffered, r.toTarget.lost);
  }

  lemma PrefixOfSum(a: seq<byte>, b: seq<byte>, c: seq<byte>)
    ensures a <= a + b + c
  {
    assert a + b + c == a + (b + c);
  }

  /** The flag that releases data to the gateway is raised by a successful receive from it, and by
      nothing else. (A receive that would block counts as successful in the code.) */
  lemma {:induction false} HeardMeansReceived(link: Link, turns: seq<Turn>)
    requires !link.heard && Loop(link, turns).heard
    ensures exists t :: t in turns && t.poll.Ready? && t.poll.gatewayIn &&
                        (t.fromGateway.WouldBlock? || (t.fromGateway.Data? && t.fromGateway.stored))
    decreases |turns|
  {
    var t := turns[0];
    assert link.Proceeds(t);
    if !link.Pass(t).heard {
      HeardMeansReceived(link.Pass(t), turns[1..]);
    } else {
      assert t in turns;
    }
  }

  /** Runs compose: a relay that has not stopped continues from where it is. */
  lemma {:induction false} RunsCompose(link: Link, first: seq<Turn>, second: seq<Turn>)
    requires forall n :: 0 <= n < |first| ==> Loop(link, first[..n]).Proceeds(first[n])
    ensures Loop(link, first + second) == Loop(Loop(link, first), second)
    decreases |first|
  {
    if first == [] {
      assert first + second == second;
    } else {
      assert first[..0] == [];
      assert link.Proceeds(first[0]);
      forall n | 0 <= n < |first[1..]| ensures Loop(link.Pass(first[0]), first[1..][..n]).Proceeds(first[1..][n]) {
        assert first[..n + 1][1..] == first[1..][..n];
        assert Loop(link, first[..n + 1]).Proceeds(first[n + 1]);
      }
      RunsCompose(link.Pass(first[0]), first[1..], second);
      assert (first + second)[1..] == first[1..] + second;
    }
  }

  /** Nothing is withheld: a pass in which a sink is writable and takes all that is offered leaves
      nothing buffered for it - for the gateway, provided it has been heard before the pass. */
  lemma PassDrains(link: Link, t: Turn)
    requires link.Proceeds(t) && t.Valid()
    ensures t.poll.targetOut && t.toTarget >= |link.toTarget.buffered| + CHUNK_SIZE ==> link.Pass(t).toTarget.buffered == []
    ensures t.poll.gatewayOut && link.heard && t.toGateway >= |link.toGateway.buffered| + CHUNK_SIZE
            ==> link.Pass(t).toGateway.buffered == []
  {}

  // ----- What is offered, what arrives ---------------------------------------------

  /** A receive after which the side it comes from counts as closed. */
  predicate Ends(r: Recv) {
    r.Closed? || r.Failed? || (r.Data? && !r.stored)
  }

  function BytesOf(r: Recv): seq<byte> {
    if r.Data? then r.bytes else []
  }

  function StoredOf(r: Recv): seq<byte> {
    if r.Data? && r.stored then r.bytes else []
  }

  function LostOf(r: Recv): seq<byte> {
    if r.Data? && !r.stored then r.bytes else []
  }

  /** All that the target offers in the first `n` turns, under a reading of each receive. */
  function FromTarget(turns: seq<Turn>, n: nat, reading: Recv -> seq<byte>): seq<byte>
    requires n <= |turns|
  {
    if n == 0 then []
    else FromTarget(turns, n - 1, reading)
         + if turns[n - 1].poll.Ready? && turns[n - 1].poll.targetIn then reading(turns[n - 1].fromTarget) else []
  }

  function FromGateway(turns: seq<Turn>, n: nat, reading: Recv -> seq<byte>): seq<byte>
    requires n <= |turns|
  {
    if n == 0 then []
    else FromGateway(turns, n - 1, reading)
         + if turns[n - 1].poll.Ready? && turns[n - 1].poll.gatewayIn then reading(turns[n - 1].fromGateway) else []
  }

  /** The gateway has been heard in the first `n` turns. */
  predicate Heard(turns: seq<Turn>, n: nat)
    requires n <= |turns|
  {
    exists i :: 0 <= i < n && turns[i].poll.Ready? && turns[i].poll.gatewayIn && !Ends(turns[i].fromGateway)
  }

  function Min(a: nat, b: nat): nat {
    if a <= b then a else b
  }

  /** How many of the bytes stored have been sent: in each turn that may write as many as are taken. */
  function ToGateway(turns: seq<Turn>, n: nat): (sent: nat)
    requires n <= |turns|
    ensures sent <= |FromTarget(turns, n, StoredOf)|
  {
    if n == 0 then 0
    else var sent := ToGateway(turns, n - 1);
         if turns[n - 1].poll.Ready? && turns[n - 1].poll.gatewayOut && Heard(turns, n - 1) then
           sent + Min(turns[n - 1].toGateway, |FromTarget(turns, n, StoredOf)| - sent)
         else sent
  }

  function ToTarget(turns: seq<Turn>, n: nat): (sent: nat)
    requires n <= |turns|
    ensures sent <= |FromGateway(turns, n, StoredOf)|
  {
    if n == 0 then 0
    else var sent := ToTarget(turns, n - 1);
         if turns[n - 1].poll.Ready? && turns[n - 1].poll.targetOut then
           sent + Min(turns[n - 1].toTarget, |FromGateway(turns, n, StoredOf)| - sent)
         else sent
  }

  /** A turn closes a side that ends, or that takes nothing of what is there for it. */
  predicate ClosesTarget(turns: seq<Turn>, i: nat)
    requires i < |turns|
  {
    var t := turns[i];
    t.poll.Ready?
    && ((t.poll.targetIn && Ends(t.fromTarget))
        || (t.poll.targetOut && t.toTarget == 0 && ToTarget(turns, i) < |FromGateway(turns, i + 1, StoredOf)|))
  }

  predicate ClosesGateway(turns: seq<Turn>, i: nat)
    requires i < |turns|
  {
    var t := turns[i];
    t.poll.Ready?
    && ((t.poll.gatewayIn && Ends(t.fromGateway))
        || (t.poll.gatewayOut && Heard(turns, i) && t.toGateway == 0
            && ToGateway(turns, i) < |FromTarget(turns, i + 1, StoredOf)|))
  }

  predicate TargetClosed(turns: seq<Turn>, n: nat)
    requires n <= |turns|
  {
    exists i :: 0 <= i < n && ClosesTarget(turns, i)
  }

  predicate GatewayClosed(turns: seq<Turn>, n: nat)
    requires n <= |turns|
  {
    exists i :: 0 <= i < n && ClosesGateway(turns, i)
  }

  /** How many turns are gone through: up to the first that is no poll result, comes with a signal, or
      finds a side closed. */
  function Turns(turns: seq<Turn>, n: nat): (m: nat)
    requires n <= |turns|
    ensures n <= m <= |turns|
    decreases |turns| - n
  {
    if n == |turns| || !turns[n].poll.Ready? || turns[n].signalled || TargetClosed(turns, n) || GatewayClosed(turns, n) then n
    else Turns(turns, n + 1)
  }

  /** The two directions after `n` turns that are gone through. */
  ghost function Gatewards(turns: seq<Turn>, n: nat): Flow
    requires n <= |turns|
  {
    var stored, sent := FromTarget(turns, n, StoredOf), ToGateway(turns, n);
    Flow(FromTarget(turns, n, BytesOf), stored[sent..], stored[..sent], FromTarget(turns, n, LostOf))
  }

  ghost function Targetwards(turns: seq<Turn>, n: nat): Flow
    requires n <= |turns|
  {
    var stored, sent := FromGateway(turns, n, StoredOf), ToTarget(turns, n);
    Flow(FromGateway(turns, n, BytesOf), stored[sent..], stored[..sent], FromGateway(turns, n, LostOf))
  }

  ghost function Reached(turns: seq<Turn>, n: nat): Link
    requires n <= |turns|
  {
    Link(Gatewards(turns, n), Targetwards(turns, n), Heard(turns, n), GatewayClosed(turns, n), TargetClosed(turns, n), false)
  }

  lemma HeardLater(turns: seq<Turn>, n: nat)
    requires n < |turns|
    ensures Heard(turns, n + 1) <==>
            Heard(turns, n) || (turns[n].poll.Ready? && turns[n].poll.gatewayIn && !Ends(turns[n].fromGateway))
  {}

  lemma ClosedLater(turns: seq<Turn>, n: nat)
    requires n < |turns|
    ensures TargetClosed(turns, n + 1) <==> TargetClosed(turns, n) || ClosesTarget(turns, n)
    ensures GatewayClosed(turns, n + 1) <==> GatewayClosed(turns, n) || ClosesGateway(turns, n)
  {}

  /** One receive of a direction, if there is one. */
  function Receives(flow: Flow, yes: bool, r: Recv): (Flow, bool) {
    if yes then flow.Receive(r) else (flow, true)
  }

  function Transmits(flow: Flow, yes: bool, limit: Send): (Flow, bool) {
    if yes then flow.Transmit(limit) else (flow, true)
  }

  lemma Received(flow: Flow, stored: seq<byte>, sent: nat, yes: bool, r: Recv)
    requires sent <= |stored| && flow.buffered == stored[sent..] && flow.sent == stored[..sent]
    ensures var more := stored + if yes then StoredOf(r) else [];
            Receives(flow, yes, r)
            == (Flow(flow.received + (if yes then BytesOf(r) else []), more[sent..], more[..sent],
                     flow.lost + if yes then LostOf(r) else []), !(yes && Ends(r)))
  {
    var more := stored + if yes then StoredOf(r) else [];
    assert more[sent..] == stored[sent..] + if yes then StoredOf(r) else [];
    assert more[..sent] == stored[..sent];
    assert flow.received + [] == flow.received && flow.lost + [] == flow.lost && flow.buffered + [] == flow.buffered;
    assert more[sent..] == flow.buffered + if yes then StoredOf(r) else [];
  }

  lemma Transmitted(flow: Flow, stored: seq<byte>, sent: nat, yes: bool, limit: Send)
    requires sent <= |stored| && flow.buffered == stored[sent..] && flow.sent == stored[..sent]
    ensures var more := sent + if yes then Min(limit, |stored| - sent) else 0;
            Transmits(flow, yes, limit)
            == (Flow(flow.received, stored[more..], stored[..more], flow.lost), !(yes && limit == 0 && sent < |stored|))
  {
    var n := flow.Accepted(limit);
    assert stored[sent..][..n] == stored[sent..sent + n] && stored[..sent] + stored[sent..sent + n] == stored[..sent + n];
  }

  lemma GatewardsLater(turns: seq<Turn>, n: nat)
    requires n < |turns| && turns[n].poll.Ready?
    ensures var t := turns[n];
            var (a, received) := Receives(Gatewards(turns, n), t.poll.targetIn, t.fromTarget);
            var writes := t.poll.gatewayOut && Heard(turns, n);
            && Transmits(a, writes, t.toGateway).0 == Gatewards(turns, n + 1)
            && received == !(t.poll.targetIn && Ends(t.fromTarget))
            && Transmits(a, writes, t.toGateway).1
               == !(writes && t.toGateway == 0 && ToGateway(turns, n) < |FromTarget(turns, n + 1, StoredOf)|)
  {
    hide Receives, Transmits, Heard, Ends, BytesOf, StoredOf, LostOf;
    var t, flow, sent := turns[n], Gatewards(turns, n), ToGateway(turns, n);
    Received(flow, FromTarget(turns, n, StoredOf), sent, t.poll.targetIn, t.fromTarget);
    var a := Receives(flow, t.poll.targetIn, t.fromTarget).0;
    Transmitted(a, FromTarget(turns, n + 1, StoredOf), sent, t.poll.gatewayOut && Heard(turns, n), t.toGateway);
  }

  lemma TargetwardsLater(turns: seq<Turn>, n: nat)
    requires n < |turns| && turns[n].poll.Ready?
    ensures var t := turns[n];
            var (a, received) := Receives(Targetwards(turns, n), t.poll.gatewayIn, t.fromGateway);
            && Transmits(a, t.poll.targetOut, t.toTarget).0 == Targetwards(turns, n + 1)
            && received == !(t.poll.gatewayIn && Ends(t.fromGateway))
            && Transmits(a, t.poll.targetOut, t.toTarget).1
               == !(t.poll.targetOut && t.toTarget == 0 && ToTarget(turns, n) < |FromGateway(turns, n + 1, StoredOf)|)
  {
    hide Receives, Transmits, Ends, BytesOf, StoredOf, LostOf;
    var t, flow, sent := turns[n], Targetwards(turns, n), ToTarget(turns, n);
    Received(flow, FromGateway(turns, n, StoredOf), sent, t.poll.gatewayIn, t.fromGateway);
    var a := Receives(flow, t.poll.gatewayIn, t.fromGateway).0;
    Transmitted(a, FromGateway(turns, n + 1, StoredOf), sent, t.poll.targetOut, t.toTarget);
  }

  /** A pass is its two directions. */
  lemma PassOfFlows(link: Link, t: Turn)
    requires t.poll.Ready?
    ensures var (a, read) := Receives(link.toGateway, t.poll.targetIn, t.fromTarget);
            var (b, wrote) := Transmits(a, t.poll.gatewayOut && link.heard, t.toGateway);
            var (c, heard) := Receives(link.toTarget, t.poll.gatewayIn, t.fromGateway);
            var (d, sent) := Transmits(c, t.poll.targetOut, t.toTarget);
            link.Pass(t) == Link(b, d, link.heard || (t.poll.gatewayIn && heard), link.gatewayClosed || !wrote || !heard,
                                 link.targetClosed || !read || !sent, link.proxyClosed)
  {
    hide Flow.Receive, Flow.Transmit;
  }

  lemma OnePass(turns: seq<Turn>, n: nat)
    requires n < |turns| && Reached(turns, n).Proceeds(turns[n])
    ensures Reached(turns, n).Pass(turns[n]) == Reached(turns, n + 1)
  {
    hide Link.Pass, Receives, Transmits, Gatewards, Targetwards, Heard, TargetClosed, GatewayClosed, Ends;
    HeardLater(turns, n);
    ClosedLater(turns, n);
    GatewardsLater(turns, n);
    TargetwardsLater(turns, n);
    PassOfFlows(Reached(turns, n), turns[n]);
  }

  lemma {:induction false} LoopReaches(turns: seq<Turn>, n: nat)
    requires n <= |turns|
    ensures var m := Turns(turns, n);
            Loop(Reached(turns, n), turns[n..])
            == Reached(turns, m).(proxyClosed := m < |turns| && (!turns[m].poll.Ready? || turns[m].signalled))
    decreases |turns| - n
  {
    hide Reached;
    ReachedFlags(turns, n);
    if n < |turns| && Reached(turns, n).Proceeds(turns[n]) {
      OnePass(turns, n);
      LoopReaches(turns, n + 1);
      assert turns[n..][1..] == turns[n + 1..];
    }
  }

  lemma ReachedFlags(turns: seq<Turn>, n: nat)
    requires n <= |turns|
    ensures var r := Reached(turns, n);
            r.gatewayClosed == GatewayClosed(turns, n) && r.targetClosed == TargetClosed(turns, n) && !r.proxyClosed
  {}

  /** Every run, from what the world offers alone. In the turns gone through everything offered is received;
      in each direction as much is sent as the sink takes of what is stored by then, to the gateway once
      it has been heard; each side is closed exactly by a receive of its own that ends or cannot be
      stored, or by taking nothing of what is there for it; and the proxy closes exactly on an error, an idle
      time-out or a signal. */
  lemma EverythingArrives(turns: seq<Turn>)
    ensures var m, r := Turns(turns, 0), Loop(Fresh, turns);
            && r.toGateway.received == FromTarget(turns, m, BytesOf) && r.toTarget.received == FromGateway(turns, m, BytesOf)
            && r.toGateway.sent == FromTarget(turns, m, StoredOf)[..ToGateway(turns, m)]
            && r.toTarget.sent == FromGateway(turns, m, StoredOf)[..ToTarget(turns, m)]
            && r.heard == Heard(turns, m) && r.gatewayClosed == GatewayClosed(turns, m) && r.targetClosed == TargetClosed(turns, m)
            && r.proxyClosed == (m < |turns| && (!turns[m].poll.Ready? || turns[m].signalled))
  {
    LoopReaches(turns, 0);
    assert turns[0..] == turns;
    assert Reached(turns, 0) == Fresh;
  }

  // ----- The code ------------------------------------------------------------------

  /** A libssh buffer: bytes before `pos` have been consumed. */
  class SshBuffer {
    var data: seq<byte>
    var pos: nat

    ghost predicate Valid()
      reads this
    {
      pos <= |data|
    }

    function Contents(): seq<byte>
      requires Valid()
      reads this
    {
      data[pos..]
    }

    constructor ()
      ensures Valid() && Contents() == []
    {
      data, pos := [], 0;
    }

    method AddData(bytes: seq<byte>)
      requires Valid()
      modifies this
      ensures Valid() && Contents() == old(Contents()) + bytes
    {
      data := data + bytes;
    }
  }

  class ProxySession {
    const bufferGatewayTarget: SshBuffer
    const bufferTargetGateway: SshBuffer
    var receivedDataFromGateway: bool
    var gatewayClosed: bool
    var targetClosed: bool
    var proxyClosed: bool

    // What has crossed the two sockets so far.
    ghost var gatewayIn: seq<byte>
    ghost var gatewayOut: seq<byte>
    ghost var targetIn: seq<byte>
    ghost var targetOut: seq<byte>
    ghost var gatewayLost: seq<byte>
    ghost var targetLost: seq<byte>

    ghost predicate Valid()
      reads this, bufferGatewayTarget, bufferTargetGateway
    {
      bufferGatewayTarget != bufferTargetGateway && bufferGatewayTarget.Valid() && bufferTargetGateway.Valid()
    }

    /** The session seen as a link. */
    ghost function View(): Link
      requires Valid()
      reads this, bufferGatewayTarget, bufferTargetGateway
    {
      Link(Flow(targetIn, bufferTargetGateway.Contents(), gatewayOut, targetLost),
           Flow(gatewayIn, bufferGatewayTarget.Contents(), targetOut, gatewayLost),
           receivedDataFromGateway, gatewayClosed, targetClosed, proxyClosed)
    }

    constructor ()
      ensures Valid() && View() == Fresh
      ensures fresh(bufferGatewayTarget) && fresh(bufferTargetGateway)
    {
      bufferGatewayTarget := new SshBuffer();
      bufferTargetGateway := new SshBuffer();
      receivedDataFromGateway, gatewayClosed, targetClosed, proxyClosed := false, false, false, false;
      gatewayIn, gatewayOut, targetIn, targetOut := [], [], [], [];
      gatewayLost, targetLost := [], [];
    }

    static method ReceiveIntoBuffer(answer: Recv, buffer: SshBuffer) returns (ok: bool)
      requires buffer.Valid()
      modifies buffer
      ensures buffer.Valid()
      ensures buffer.Contents() == old(buffer.Contents()) + if answer.Data? && answer.stored then answer.bytes else []
      ensures ok <==> answer.WouldBlock? || (answer.Data? && answer.stored)
    {
      if answer.Data? {
        if answer.stored {
          buffer.AddData(answer.bytes);
        }
        return answer.stored;
      }
      return answer.WouldBlock?;
    }

    static method SendFromBuffer(limit: Send, buffer: SshBuffer) returns (ok: bool, ghost taken: seq<byte>)
      requires buffer.Valid()
      modifies buffer`pos
      ensures buffer.Valid()
      ensures var was := old(buffer.Contents());
              var n := if limit <= |was| then limit else |was|;
              taken == was[..n] && buffer.Contents() == was[n..] && (ok <==> was == [] || n > 0)
    {
      ghost var was := buffer.Contents();
      var bytesToSend := |buffer.data| - buffer.pos;
      taken := [];
      if bytesToSend > 0 {
        var bytesSent := if limit <= bytesToSend then limit else bytesToSend;
        taken := was[..bytesSent];
        buffer.pos := buffer.pos + bytesSent;
        assert buffer.Contents() == was[bytesSent..];
        return bytesSent > 0, taken;
      }
      assert was == [] && was[..0] == [] && was[0..] == [];
      return true, taken;
    }

    method ReadTarget(answer: Recv)
      requires Valid()
      modifies this`targetIn, this`targetLost, this`targetClosed, bufferTargetGateway
      ensures Valid() && View() == old(View()).ReadTarget(answer)
    {
      var ok := ReceiveIntoBuffer(answer, bufferTargetGateway);
      if answer.Data? {
        targetIn := targetIn + answer.bytes;
        targetLost := if answer.stored then targetLost else targetLost + answer.bytes;
      }
      if !ok {
        targetClosed := true;
      }
    }

    method WriteGateway(limit: Send)
      requires Valid()
      modifies this`gatewayOut, this`gatewayClosed, bufferTargetGateway`pos
      ensures Valid() && View() == old(View()).WriteGateway(limit)
    {
      var ok, taken := SendFromBuffer(limit, bufferTargetGateway);
      gatewayOut := gatewayOut + taken;
      if !ok {
        gatewayClosed := true;
      }
    }

    method ReadGateway(answer: Recv)
      requires Valid()
      modifies this`gatewayIn, this`gatewayLost, this`gatewayClosed, this`receivedDataFromGateway, bufferGatewayTarget
      ensures Valid() && View() == old(View()).ReadGateway(answer)
    {
      var ok := ReceiveIntoBuffer(answer, bufferGatewayTarget);
      if answer.Data? {
        gatewayIn := gatewayIn + answer.bytes;
        gatewayLost := if answer.stored then gatewayLost else gatewayLost + answer.bytes;
      }
      if ok {
        receivedDataFromGateway := true;
      } else {
        gatewayClosed := true;
      }
    }

    method WriteTarget(limit: Send)
      requires Valid()
      modifies this`targetOut, this`targetClosed, bufferGatewayTarget`pos
      ensures Valid() && View() == old(View()).WriteTarget(limit)
    {
      var ok, taken := SendFromBuffer(limit, bufferGatewayTarget);
      targetOut := targetOut + taken;
      if !ok {
        targetClosed := true;
      }
    }

    method SessionLoop(turns: seq<Turn>)
      requires Valid()
      modifies this, bufferGatewayTarget, bufferTargetGateway
      ensures Valid() && View() == Loop(old(View()), turns)
    {
      hide Link.ReadTarget, Link.WriteGateway, Link.ReadGateway, Link.WriteTarget;
      var i := 0;
      while i < |turns|
        invariant 0 <= i <= |turns| && Valid()
        invariant Loop(View(), turns[i..]) == Loop(old(View()), turns)
      {
        var t := turns[i];
        assert turns[i..][0] == t && turns[i..][1..] == turns[i + 1..];
        if t.poll.Error? || t.poll.Timeout? {
          proxyClosed := true;
          return;
        }
        if t.signalled {
          proxyClosed := true;
          return;
        }
        if gatewayClosed || targetClosed || proxyClosed {
          return;
        }
        if t.poll.targetIn {
          ReadTarget(t.fromTarget);
        }
        if t.poll.gatewayOut && receivedDataFromGateway {
          WriteGateway(t.toGateway);
        }
        if t.poll.gatewayIn {
          ReadGateway(t.fromGateway);
        }
        if t.poll.targetOut {
          WriteTarget(t.toTarget);
        }
        i := i + 1;
      }
    }
  }
}
