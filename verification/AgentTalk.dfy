/** One exchange with the client's SSH agent: a length and a request go out, a length and a reply
    come back, over a channel that transfers as many bytes at a time as it likes. */
module AgentTalk {
  import opened Bytes

  const SIZE_MAX: nat := 0x1_0000_0000_0000_0000   // one past the largest size_t
  const AGAIN: int := -2
  const MAX_REPLY: nat := 256 * 1024
  const PAYLOAD: nat := 1024

  // ----- 32-bit numbers on the wire -------------------------------------------------

  function Wire(v: nat): (s: seq<byte>)
    requires v < 0x1_0000_0000
    ensures |s| == 4
  {
    [v / 0x100_0000, v / 0x1_0000 % 0x100, v / 0x100 % 0x100, v % 0x100]
  }

  function Number(s: seq<byte>): (v: nat)
    requires |s| >= 4
    ensures v < 0x1_0000_0000
  {
    s[0] as int * 0x100_0000 + s[1] as int * 0x1_0000 + s[2] as int * 0x100 + s[3]
  }

  lemma Shifted(high: nat, low: byte)
    ensures (high * 0x100 + low) / 0x100 == high && (high * 0x100 + low) % 0x100 == low
  {}

  lemma DigitsOf(a: byte, b: byte, c: byte, d: byte)
    ensures var n := a as int * 0x100_0000 + b as int * 0x1_0000 + c as int * 0x100 + d;
            n / 0x100_0000 == a && n / 0x1_0000 % 0x100 == b && n / 0x100 % 0x100 == c && n % 0x100 == d
  {
    var ab := a * 0x100 as int + b;
    var abc := ab * 0x100 + c;
    var n := abc * 0x100 + d;
    Shifted(abc, d);
    Shifted(ab, c);
    Shifted(a, b);
    assert n / 0x1_0000 == ab && n / 0x100_0000 == a;
  }

  lemma WireOfNumber(s: seq<byte>)
    requires |s| == 4
    ensures Wire(Number(s)) == s
  {
    DigitsOf(s[0], s[1], s[2], s[3]);
    assert s == [s[0], s[1], s[2], s[3]];
  }

  /** Writing and reading a number are inverse both ways. */
  lemma WireRoundTrip(v: nat, s: seq<byte>)
    requires v < 0x1_0000_0000 && |s| == 4
    ensures Number(Wire(v)) == v && Wire(Number(s)) == s
  {
    WireOfNumber(s);
    hide Wire;
    NumberOfWire(v);
  }

  lemma NumberOfWire(v: nat)
    requires v < 0x1_0000_0000
    ensures Number(Wire(v)) == v
  {
    assert v / 0x1_0000 == (v / 0x100_0000) * 0x100 + v / 0x1_0000 % 0x100;
    assert v / 0x100 == (v / 0x1_0000) * 0x100 + v / 0x100 % 0x100;
  }

  method PutU32(p: array<byte>, v: nat)
    requires p.Length >= 4 && v < 0x1_0000_0000
    modifies p
    ensures p[..4] == Wire(v) && p[4..] == old(p[4..])
  {
    p[0] := v / 0x100_0000;
    p[1] := v / 0x1_0000 % 0x100;
    p[2] := v / 0x100 % 0x100;
    p[3] := v % 0x100;
  }

  // ----- Transfers ------------------------------------------------------------------

  /** What one call of the channel's read or write answers: bytes moved, try again, or an error.
      The bytes of a write are not looked at, only their number. */
  datatype Transfer = Moved(bytes: seq<byte>) | TryAgain | Failed

  class Channel {
    var script: seq<Transfer>       // the answers to come
    ghost var sent: seq<byte>       // everything written so far
    ghost var received: seq<byte>   // everything read so far
    ghost var agains: nat

    constructor (script: seq<Transfer>)
      ensures this.script == script && sent == [] && received == [] && agains == 0
    {
      this.script := script;
      sent, received, agains := [], [], 0;
    }

    /** One call: at most `n` bytes. Over when the script ends, as a call that never returns. */
    method Call(n: nat) returns (t: Transfer, over: bool)
      modifies this`script
      ensures |script| <= old(|script|) && (!over ==> |script| < old(|script|))
      ensures t.Moved? ==> |t.bytes| <= n
    {
      if script == [] {
        return Failed, true;
      }
      t, script := script[0], script[1..];
      over := false;
      if t.Moved? && |t.bytes| > n {
        t := Moved(t.bytes[..n]);
      }
    }

    /** Reads into the first `n` places of the buffer. The full count means that the bytes read are in
        the buffer, in order and complete, exactly when the channel never asked to try again: each such
        answer moves the position two places back, so that two bytes too many are read. */
    method ReadFully(b: array<byte>, n: nat) returns (count: nat, over: bool)
      requires n <= b.Length && n < 0x1_0000_0000
      modifies this, b
      ensures |script| <= old(|script|) && sent == old(sent) && agains >= old(agains)
      ensures old(received) <= received
      ensures !over && count == n && n > 0 ==> |received| == |old(received)| + n + 2 * (agains - old(agains))
      ensures !over && count == n && n > 0 ==>
                (agains == old(agains) <==> received == old(received) + b[..n])
    {
      var pos := 0;
      ghost var got: seq<byte> := [];
      over := false;
      while n > pos
        invariant 0 <= pos && pos < SIZE_MAX && sent == old(sent) && agains >= old(agains)
        invariant received == old(received) + got && |script| <= old(|script|)
        invariant pos <= n ==> pos + 2 * (agains - old(agains)) == |got|
        invariant pos <= n && agains == old(agains) ==> got == b[..pos]
        invariant n == 0 ==> pos == 0
        decreases |script|
      {
        var t;
        t, over := Call(n - pos);
        if over { return 0, true; }
        match t {
          case Moved(bytes) =>
            forall i | 0 <= i < |bytes| {
              b[pos + i] := bytes[i];
            }
            assert agains == old(agains) ==> b[..pos + |bytes|] == got + bytes;
            received := received + bytes;
            got := got + bytes;
            pos := pos + |bytes|;
          case TryAgain =>
            agains := agains + 1;
            pos := (pos + AGAIN) % SIZE_MAX;
          case Failed =>
            return 0, false;
        }
      }
      return pos, false;
    }

    /** Writes the data; in full and in order when the channel never asked to try again. */
    method WriteFully(data: seq<byte>) returns (count: nat, over: bool)
      requires |data| < 0x1_0000_0000
      modifies this
      ensures |script| <= old(|script|) && received == old(received) && agains >= old(agains)
      ensures old(sent) <= sent
      ensures !over && count == |data| && data != [] ==> |sent| == |old(sent)| + |data| + 2 * (agains - old(agains))
      ensures !over && count == |data| && data != [] ==> (agains == old(agains) <==> sent == old(sent) + data)
      ensures data == [] ==> !over && count == 0 && sent == old(sent) && agains == old(agains)
    {
      var n, pos := |data|, 0;
      ghost var put: seq<byte> := [];
      over := false;
      while n > pos
        invariant 0 <= pos && pos < SIZE_MAX && received == old(received) && agains >= old(agains)
        invariant sent == old(sent) + put && |script| <= old(|script|)
        invariant pos <= n ==> pos + 2 * (agains - old(agains)) == |put|
        invariant pos <= n && agains == old(agains) ==> put == data[..pos]
        invariant n == 0 ==> pos == 0 && agains == old(agains)
        decreases |script|
      {
        var t;
        t, over := Call(n - pos);
        if over { return 0, true; }
        match t {
          case Moved(bytes) =>
            var piece := data[pos..pos + |bytes|];
            sent := sent + piece;
            put := put + piece;
            pos := pos + |bytes|;
          case TryAgain =>
            agains := agains + 1;
            pos := (pos + AGAIN) % SIZE_MAX;
          case Failed =>
            return 0, false;
        }
      }
      return pos, false;
    }

    // ----- The exchange ---------------------------------------------------------------

    /** On success the request went out behind its length, and the reply is exactly the announced number of
        bytes that followed, in order - provided that no call was answered with try again, and only then:
        each such answer has two bytes too many sent or read. */
    method Talk(request: seq<byte>) returns (ok: bool, reply: seq<byte>)
      requires |request| < 0x1_0000_0000
      modifies this
      ensures ok ==> |reply| <= MAX_REPLY
      ensures ok ==> |sent| + |received| == |old(sent)| + |old(received)| + 4 + |request| + 4 + |reply| + 2 * (agains - old(agains))
      ensures ok ==> (agains == old(agains) <==> Exchanged(old(sent), old(received), request, reply))
    {
      ok, reply := false, [];
      var payload := new byte[PAYLOAD](_ => 0);
      PutU32(payload, |request|);
      var count, over := WriteFully(payload[..4]);
      if over || count != 4 { return; }
      count, over := WriteFully(request);
      if over || count != |request| { return; }
      count, over := ReadFully(payload, 4);
      if over || count != 4 { return; }
      var len := Number(payload[..4]);
      if len > MAX_REPLY { return; }
      ghost var header, announced := payload[..4], len;
      while len > 0
        invariant 0 <= len && len + |reply| == announced <= MAX_REPLY && |payload[..]| == PAYLOAD
        invariant agains >= old(agains)
        invariant |sent| + |received| == |old(sent)| + |old(received)| + 4 + |request| + 4 + |reply| + 2 * (agains - old(agains))
        invariant agains == old(agains) ==> sent == old(sent) + Wire(|request|) + request
                                              && received == old(received) + header + reply
        decreases len
      {
        var n := if len > PAYLOAD then PAYLOAD else len;
        count, over := ReadFully(payload, n);
        if over || count != n { return; }
        reply := reply + payload[..n];
        len := len - n;
      }
      ok := true;
      WireRoundTrip(announced, header);
    }

    ghost predicate Exchanged(sentBefore: seq<byte>, receivedBefore: seq<byte>, request: seq<byte>, reply: seq<byte>)
      requires |request| < 0x1_0000_0000
      reads this
    {
      && sent == sentBefore + Wire(|request|) + request
      && |reply| <= MAX_REPLY
      && received == receivedBefore + Wire(|reply|) + reply
    }
  }
}
