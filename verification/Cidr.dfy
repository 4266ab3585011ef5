/** IPv6 networks as they are written, what the parser makes of each of them, and when that is the
    address they denote (section 2.2 of RFC 4291, prefixes as in section 2.3). */
module Cidr {
  import opened Bytes
  import opened Text
  import opened CidrMatch
  import opened CidrParser

  // ----- Networks and their text ----------------------------------------------------

  /** Groups, perhaps "::" and more groups, perhaps a dotted quad at the end, perhaps a prefix length. */
  datatype Network = Network(head: seq<string>, compressed: bool, tail: seq<string>,
                             quad: Option<(byte, byte, byte, byte)>, bits: Option<nat>)
  {
    ghost predicate WellFormed() {
      && Groups(head) && Groups(tail)
      && (bits.Some? ==> bits.value <= 128)
      && (!compressed ==> tail == [] && (head != [] || quad.Some?))
    }

    /** Of at most eight groups, a quad counting for two. */
    ghost predicate Valid() {
      WellFormed() && |Before()| + |After()| <= 16
    }

    /** The bytes written in front of "::" (all of them without it) and behind it. */
    function Before(): seq<byte> {
      GroupBytes(head) + if compressed then [] else QuadBytes(quad)
    }

    function After(): seq<byte> {
      if compressed then GroupBytes(tail) + QuadBytes(quad) else []
    }

    function Length(): nat {
      if bits.Some? then bits.value else 128
    }

    /** The number of bytes the parser lays the result out over. */
    function Span(): nat
      requires Length() <= 128
    {
      2 * GroupCount(Length(), quad.Some?)
    }

    /** The address denoted, where it has all of its eight groups. */
    function Denoted(): seq<byte>
      requires |Before()| + |After()| <= 16
    {
      Before() + Zeros(16 - |Before()| - |After()|) + After()
    }

    function Text(): string {
      (if compressed then (if head == [] then ":" else "") + Led(head) + ":" + Rest(tail, quad) else Rest(head, quad))
      + Suffix(bits)
    }
  }

  ghost predicate Groups(groups: seq<string>) {
    forall i :: 0 <= i < |groups| ==> 1 <= |groups[i]| <= 4 && AllHex(groups[i])
  }

  function GroupBytes(groups: seq<string>): (b: seq<byte>)
    ensures |b| == 2 * |groups|
  {
    if groups == [] then []
    else WordBytes(if AllHex(groups[0]) then HexValue(groups[0]) else 0) + GroupBytes(groups[1..])
  }

  function QuadBytes(quad: Option<(byte, byte, byte, byte)>): seq<byte> {
    match quad
    case None => []
    case Some((a, b, c, d)) => [a, b, c, d]
  }

  /** Every group followed by a colon. */
  function Led(groups: seq<string>): string {
    if groups == [] then "" else groups[0] + ":" + Led(groups[1..])
  }

  function QuadText(q: (byte, byte, byte, byte)): string {
    Decimal(q.0) + "." + Decimal(q.1) + "." + Decimal(q.2) + "." + Decimal(q.3)
  }

  /** Groups and a quad with colons between them. */
  function Rest(groups: seq<string>, quad: Option<(byte, byte, byte, byte)>): string {
    if groups == [] then if quad.Some? then QuadText(quad.value) else ""
    else if |groups| == 1 && quad.None? then groups[0]
    else groups[0] + ":" + Rest(groups[1..], quad)
  }

  function Suffix(bits: Option<nat>): string {
    if bits.Some? then "/" + Decimal(bits.value) else ""
  }

  // ----- Scanning the text ----------------------------------------------------------

  lemma {:induction false} TokenScan(t1: string, t2: string, more: string, out: seq<byte>, colon: int)
    requires AllHex(t1) && AllHex(t2) && |t1| + |t2| <= 4 && |out| <= 16 && -1 <= colon <= |out|
    ensures AllHex(t1 + t2) && Scanned(t2 + more, out, colon, t1) == Scanned(more, out, colon, t1 + t2)
    decreases |t2|
  {
    if t2 == "" {
      assert t2 + more == more && t1 + t2 == t1;
    } else {
      var s := t2 + more;
      assert s[0] == t2[0] && s[1..] == t2[1..] + more;
      assert t1 + [t2[0]] + t2[1..] == t1 + t2;
      assert AllHex(t1 + [t2[0]]);
      hide Scanned;
      ScanHex(s, out, colon, t1);
      TokenScan(t1 + [t2[0]], t2[1..], more, out, colon);
    }
  }

  /** One group with its colon. */
  lemma GroupScan(g: string, more: string, out: seq<byte>, colon: int)
    requires 1 <= |g| <= 4 && AllHex(g) && |out| <= 16 && -1 <= colon <= |out| && more != ""
    ensures Scanned(g + ":" + more, out, colon, "")
            == if |out| + 2 > 16 then TooMany else Scanned(more, out + WordBytes(HexValue(g)), colon, "")
  {
    hide Scanned;
    TokenScan("", g, ":" + more, out, colon);
    assert g + ":" + more == g + (":" + more) && "" + g == g;
    ScanColon(":" + more, out, colon, g);
    assert (":" + more)[1..] == more;
  }

  lemma {:induction false} LedScan(groups: seq<string>, more: string, out: seq<byte>, colon: int)
    requires Groups(groups) && more != "" && |out| + 2 * |groups| <= 16 && -1 <= colon <= |out|
    ensures Scanned(Led(groups) + more, out, colon, "") == Scanned(more, out + GroupBytes(groups), colon, "")
    decreases |groups|
  {
    hide Scanned, HexValue, WordBytes;
    if groups == [] {
      assert Led(groups) + more == more && out + GroupBytes(groups) == out;
    } else {
      var g, rest := groups[0], Led(groups[1..]) + more;
      LedFirst(groups, more);
      GroupScan(g, rest, out, colon);
      var next := out + WordBytes(HexValue(g));
      Associative(out, WordBytes(HexValue(g)), GroupBytes(groups[1..]));
      LedScan(groups[1..], more, next, colon);
    }
  }

  lemma LedFirst(groups: seq<string>, more: string)
    requires groups != []
    ensures Led(groups) + more == groups[0] + ":" + (Led(groups[1..]) + more)
  {}

  // ----- Decimal parts --------------------------------------------------------------

  lemma {:induction false} PrefixDigits(k: nat, more: string)
    requires k <= 128
    ensures PrefixLength(Decimal(k) + more, 0, 0) == PrefixLength(more, |Decimal(k)|, k)
  {
    if k < 10 {
      assert (Decimal(k) + more)[1..] == more;
    } else {
      var last := [DigitChar(k % 10)];
      PrefixDigits(k / 10, last + more);
      assert Decimal(k) + more == Decimal(k / 10) + (last + more);
      assert (last + more)[1..] == more && (last + more)[0] == last[0];
    }
  }

  lemma PrefixOfSuffix(bits: nat)
    requires bits <= 128
    ensures PrefixLength(Decimal(bits), 0, 0) == Some(bits)
  {
    PrefixDigits(bits, "");
    assert Decimal(bits) + "" == Decimal(bits);
  }

  /** The digits still to come complete those already read to a decimal without leading zeros. */
  lemma {:induction false} PrefixRest(s: string, n: nat, val: nat)
    requires n > 0 && val <= 128
    ensures var r := PrefixLength(s, n, val); r.Some? ==> Decimal(r.value) == Decimal(val) + s
    decreases |s|
  {
    if s == "" {
      assert Decimal(val) + s == Decimal(val);
    } else if IsDigit(s[0]) && val != 0 && val * 10 + DigitOf(s[0]) <= 128 {
      var more := val * 10 + DigitOf(s[0]);
      PrefixRest(s[1..], n + 1, more);
      assert Decimal(more) == Decimal(val) + [s[0]];
      assert Decimal(val) + s == Decimal(val) + [s[0]] + s[1..];
    }
  }

  /** The prefix lengths accepted are exactly the decimals up to 128. */
  lemma PrefixLengthIff(s: string, bits: nat)
    ensures PrefixLength(s, 0, 0) == Some(bits) <==> bits <= 128 && s == Decimal(bits)
  {
    if bits <= 128 {
      PrefixOfSuffix(bits);
    }
    if s != "" && IsDigit(s[0]) {
      PrefixRest(s[1..], 1, DigitOf(s[0]));
      assert Decimal(DigitOf(s[0])) == [s[0]];
      assert s == [s[0]] + s[1..];
    }
  }

  lemma {:induction false} OctetDigits(k: nat, more: string, seen: seq<byte>)
    requires k <= 255 && |seen| <= 4
    ensures Octets(Decimal(k) + more, seen, 0, 0) == Octets(more, seen, |Decimal(k)|, k)
    ensures k < 1000 ==> |Decimal(k)| <= 3
  {
    if k < 10 {
      assert (Decimal(k) + more)[1..] == more;
    } else {
      var last := [DigitChar(k % 10)];
      OctetDigits(k / 10, last + more, seen);
      assert Decimal(k) + more == Decimal(k / 10) + (last + more);
      assert (last + more)[1..] == more && (last + more)[0] == last[0];
      assert k / 10 < 10 ==> |Decimal(k / 10)| == 1;
      assert k >= 100 ==> |Decimal(k / 10 / 10)| == 1 && |Decimal(k / 10)| == 2;
    }
  }

  /** An octet with its dot. */
  lemma OctetDot(k: byte, more: string, seen: seq<byte>)
    requires |seen| <= 3
    ensures Octets(Decimal(k) + "." + more, seen, 0, 0) == Octets(more, seen + [k], 0, 0)
  {
    hide Decimal;
    OctetDigits(k, "." + more, seen);
    assert Decimal(k) + "." + more == Decimal(k) + ("." + more);
    assert ("." + more)[1..] == more;
  }

  lemma QuadOctets(q: (byte, byte, byte, byte), bits: Option<nat>)
    requires bits.Some? ==> bits.value <= 128
    ensures Octets(QuadText(q) + Suffix(bits), [], 0, 0) == Some(([q.0, q.1, q.2, q.3], bits))
  {
    hide Decimal, Octets, Suffix;
    var s4 := Decimal(q.3) + Suffix(bits);
    var s3 := Decimal(q.2) + "." + s4;
    var s2 := Decimal(q.1) + "." + s3;
    Dotted(Decimal(q.0), Decimal(q.1), Decimal(q.2), Decimal(q.3), Suffix(bits));
    OctetDot(q.0, s2, []);
    OctetDot(q.1, s3, [q.0]);
    OctetDot(q.2, s4, [q.0, q.1]);
    LastOctet(q.3, bits, [q.0, q.1, q.2]);
    assert [] + [q.0] == [q.0] && [q.0] + [q.1] == [q.0, q.1] && [q.0, q.1] + [q.2] == [q.0, q.1, q.2];
    assert [q.0, q.1, q.2] + [q.3] == [q.0, q.1, q.2, q.3];
  }

  lemma Dotted(a: string, b: string, c: string, d: string, suffix: string)
    ensures a + "." + b + "." + c + "." + d + suffix == a + "." + (b + "." + (c + "." + (d + suffix)))
  {}

  lemma LastOctet(k: byte, bits: Option<nat>, seen: seq<byte>)
    requires |seen| == 3 && (bits.Some? ==> bits.value <= 128)
    ensures Octets(Decimal(k) + Suffix(bits), seen, 0, 0) == Some((seen + [k], bits))
  {
    hide Decimal;
    OctetDigits(k, Suffix(bits), seen);
    if bits.Some? {
      PrefixOfSuffix(bits.value);
      assert Suffix(bits)[1..] == Decimal(bits.value);
    }
  }

  // ----- The whole text -------------------------------------------------------------

  lemma SuffixScan(token: string, bits: Option<nat>, out: seq<byte>, colon: int)
    requires |out| <= 16 && -1 <= colon <= |out| && AllHex(token) && |token| <= 4 && (bits.Some? ==> bits.value <= 128)
    ensures Scanned(Suffix(bits), out, colon, token) == Scan(out, colon, token, bits, false)
  {
    hide Decimal, Scanned;
    ScanEnd(Suffix(bits), out, colon, token);
    if bits.Some? {
      assert Suffix(bits)[1..] == Decimal(bits.value);
      PrefixOfSuffix(bits.value);
    }
  }

  lemma QuadScanned(q: (byte, byte, byte, byte), bits: Option<nat>, out: seq<byte>, colon: int)
    requires |out| + 4 <= 16 && -1 <= colon <= |out| && (bits.Some? ==> bits.value <= 128)
    ensures Scanned(QuadText(q) + Suffix(bits), out, colon, "") == Scan(out + [q.0, q.1, q.2, q.3], colon, "", bits, true)
  {
    hide Decimal, Scanned, Octets;
    var first := Decimal(q.0);
    var more := "." + (Decimal(q.1) + "." + Decimal(q.2) + "." + Decimal(q.3) + Suffix(bits));
    assert QuadText(q) + Suffix(bits) == first + more;
    OctetDigits(q.0, more, []);
    TokenScan("", first, more, out, colon);
    assert "" + first == first;
    ScanEnd(more, out, colon, first);
    QuadOctets(q, bits);
    QuadMeans(first + more, out, colon, Some(([q.0, q.1, q.2, q.3], bits)));
    assert [q.0, q.1, q.2, q.3] + seq(0, _ => 0 as byte) == [q.0, q.1, q.2, q.3];
  }

  /** The groups after "::", or all of them, and the end of the text. */
  lemma {:induction false} RestScan(groups: seq<string>, quad: Option<(byte, byte, byte, byte)>, bits: Option<nat>,
                                    out: seq<byte>, colon: int)
    requires Groups(groups) && |out| + |GroupBytes(groups) + QuadBytes(quad)| <= 16 && -1 <= colon <= |out|
    requires bits.Some? ==> bits.value <= 128
    ensures Concluded(Scanned(Rest(groups, quad) + Suffix(bits), out, colon, ""))
            == Laid(out + (GroupBytes(groups) + QuadBytes(quad)), colon, if bits.Some? then bits.value else 128, quad.Some?)
    decreases |groups|
  {
    hide Scanned, Laid, Concluded, HexValue, WordBytes, QuadText, Rest, GroupBytes, QuadBytes, Suffix;
    if groups == [] {
      NoGroups(quad, bits, out, colon);
    } else if |groups| == 1 && quad.None? {
      LastGroup(groups[0], bits, out, colon);
      assert groups == [groups[0]];
    } else {
      var g := groups[0];
      var word := WordBytes(HexValue(g));
      var rest := Rest(groups[1..], quad) + Suffix(bits);
      RestIsText(groups[1..], quad);
      FirstGroup(groups, quad, Suffix(bits), out);
      GroupScan(g, rest, out, colon);
      RestScan(groups[1..], quad, bits, out + word, colon);
    }
  }

  lemma FirstGroup(groups: seq<string>, quad: Option<(byte, byte, byte, byte)>, suffix: string, out: seq<byte>)
    requires Groups(groups) && (|groups| > 1 || (|groups| == 1 && quad.Some?))
    ensures Rest(groups, quad) + suffix == groups[0] + ":" + (Rest(groups[1..], quad) + suffix)
    ensures out + WordBytes(HexValue(groups[0])) + (GroupBytes(groups[1..]) + QuadBytes(quad))
            == out + (GroupBytes(groups) + QuadBytes(quad))
  {
    hide HexValue, WordBytes, QuadText, QuadBytes;
    FirstText(groups, quad, suffix);
    hide Rest;
    var word, more := WordBytes(HexValue(groups[0])), GroupBytes(groups[1..]);
    Associative(word, more, QuadBytes(quad));
    Associative(out, word, more + QuadBytes(quad));
  }

  lemma FirstText(groups: seq<string>, quad: Option<(byte, byte, byte, byte)>, suffix: string)
    requires |groups| > 1 || (|groups| == 1 && quad.Some?)
    ensures Rest(groups, quad) + suffix == groups[0] + ":" + (Rest(groups[1..], quad) + suffix)
  {
    hide QuadText;
  }

  lemma NoGroups(quad: Option<(byte, byte, byte, byte)>, bits: Option<nat>, out: seq<byte>, colon: int)
    requires |out| + |QuadBytes(quad)| <= 16 && -1 <= colon <= |out| && (bits.Some? ==> bits.value <= 128)
    ensures |out + (GroupBytes([]) + QuadBytes(quad))| <= 16
    ensures Concluded(Scanned(Rest([], quad) + Suffix(bits), out, colon, ""))
            == Laid(out + (GroupBytes([]) + QuadBytes(quad)), colon, if bits.Some? then bits.value else 128, quad.Some?)
  {
    hide Scanned, Laid, QuadText, Suffix;
    assert out + (GroupBytes([]) + QuadBytes(quad)) == out + QuadBytes(quad);
    if quad.Some? {
      QuadScanned(quad.value, bits, out, colon);
    } else {
      assert Rest([], quad) + Suffix(bits) == Suffix(bits) && out + QuadBytes(quad) == out;
      SuffixScan("", bits, out, colon);
    }
  }

  lemma LastGroup(g: string, bits: Option<nat>, out: seq<byte>, colon: int)
    requires 1 <= |g| <= 4 && AllHex(g) && |out| + 2 <= 16 && -1 <= colon <= |out| && (bits.Some? ==> bits.value <= 128)
    ensures |out + (GroupBytes([g]) + QuadBytes(None))| <= 16
    ensures Concluded(Scanned(Rest([g], None) + Suffix(bits), out, colon, ""))
            == Laid(out + (GroupBytes([g]) + QuadBytes(None)), colon, if bits.Some? then bits.value else 128, false)
  {
    hide Scanned, Laid, Suffix, HexValue, WordBytes;
    TokenScan("", g, Suffix(bits), out, colon);
    assert "" + g == g;
    SuffixScan(g, bits, out, colon);
    assert [g][1..] == [];
    assert GroupBytes([g]) + QuadBytes(None) == WordBytes(HexValue(g));
  }

  lemma RestIsText(groups: seq<string>, quad: Option<(byte, byte, byte, byte)>)
    requires Groups(groups) && (groups != [] || quad.Some?)
    ensures Rest(groups, quad) != "" && Rest(groups, quad)[0] != ':'
  {
    if groups == [] {
      assert Decimal(quad.value.0)[0] == QuadText(quad.value)[0];
    } else {
      assert groups[0][0] == Rest(groups, quad)[0];
    }
  }

  /** Every network of at most eight groups, in any of its spellings: the parser lays out exactly the
      bytes of its groups. */
  lemma ParsesText(net: Network)
    requires net.Valid()
    ensures Parse(net.Text()) == Laid(net.Before() + net.After(), if net.compressed then |net.Before()| else -1,
                                      net.Length(), net.quad.Some?)
  {
    hide Scanned, Laid, Led, Rest, Suffix, GroupBytes;
    if net.compressed {
      CompressedScan(net);
    } else {
      RestIsText(net.head, net.quad);
      RestScan(net.head, net.quad, net.bits, [], -1);
      assert net.Text() == Rest(net.head, net.quad) + Suffix(net.bits) && net.Text()[0] != ':';
      assert [] + (GroupBytes(net.head) + QuadBytes(net.quad)) == net.Before() + net.After();
    }
  }

  lemma CompressedScan(net: Network)
    requires net.Valid() && net.compressed
    ensures Parse(net.Text()) == Laid(net.Before() + net.After(), |net.Before()|, net.Length(), net.quad.Some?)
  {
    hide Scanned, Laid, Suffix, GroupBytes;
    var rest := Rest(net.tail, net.quad) + Suffix(net.bits);
    var text := Led(net.head) + (":" + rest);
    CompressedText(net);
    var before := GroupBytes(net.head);
    assert net.Before() == before;
    LedScan(net.head, ":" + rest, [], -1);
    assert [] + before == before;
    ScanColon(":" + rest, before, -1, "");
    assert (":" + rest)[1..] == rest;
    RestScan(net.tail, net.quad, net.bits, before, |before|);
  }

  /** The special case of a leading "::" is one more colon, which the parser skips. */
  lemma CompressedText(net: Network)
    requires net.WellFormed() && net.compressed
    ensures var text := Led(net.head) + (":" + (Rest(net.tail, net.quad) + Suffix(net.bits)));
            Parse(net.Text()) == Concluded(Scanned(text, [], -1, ""))
  {
    hide Scanned, Concluded;
    TextColons(net.head, Rest(net.tail, net.quad), Suffix(net.bits));
    hide Led, Rest, Suffix;
  }

  lemma TextColons(head: seq<string>, rest: string, suffix: string)
    requires Groups(head)
    ensures var text := Led(head) + (":" + (rest + suffix));
            var whole := (if head == [] then ":" else "") + Led(head) + ":" + rest + suffix;
            && (head == [] ==> |whole| >= 2 && whole[0] == ':' && whole[1] == ':' && whole[1..] == text)
            && (head != [] ==> whole == text && whole != "" && whole[0] != ':')
  {
    var text := Led(head) + (":" + (rest + suffix));
    if head != [] {
      assert text[0] == head[0][0];
    }
  }

  // ----- The layout -----------------------------------------------------------------

  lemma {:induction false} ShiftLays(head: seq<byte>, tail: seq<byte>, gap: nat, behind: seq<byte>, i: nat)
    requires gap > 0 && i <= |tail|
    ensures var n := |tail|;
            var t := head + tail[..n - i] + Zeros(gap) + tail[n - i..] + behind;
            ShiftFrom(t, |head|, n, |head| + n + gap, i + 1) == head + Zeros(gap) + tail + behind
    decreases |tail| - i
  {
    var n, c := |tail|, |head|;
    var t := head + tail[..n - i] + Zeros(gap) + tail[n - i..] + behind;
    if i == n {
      assert t == head + Zeros(gap) + tail + behind;
    } else {
      var next := head + tail[..n - i - 1] + Zeros(gap) + tail[n - i - 1..] + behind;
      assert t[c + n + gap - (i + 1) := t[c + n - (i + 1)]][c + n - (i + 1) := 0] == next;
      ShiftLays(head, tail, gap, behind, i + 1);
    }
  }

  lemma {:induction false} NoShift(t: seq<byte>, colon: nat, end: nat)
    requires colon <= |t| && end <= |t|
    ensures ShiftFrom(t, colon, 0, end, 1) == t
  {}

  /** `k` modulo `d`. */
  function Wrap(k: nat, d: nat): (r: nat)
    requires d > 0
    ensures r < d && r <= k
  {
    if k < d then k else Wrap(k - d, d)
  }

  /** After `i` - 1 steps of a shift down: `c` bytes, then `n` to be moved to end at `end`. */
  ghost function Shifting(t: seq<byte>, c: nat, n: nat, end: nat, i: nat): (r: seq<byte>)
    requires n <= end < c + n <= |t| && 1 <= i <= n + 1
    ensures |r| == |t|
  {
    seq(|t|, q requires 0 <= q < |t| =>
      if c + n - i < q < c + n then 0
      else if end - i < q < end then t[c + n - 1 - Wrap(end - 1 - q, c + n - end)]
      else t[q])
  }

  /** A shift down overlaps its own source: each byte it moves may be one it has put there before. */
  lemma {:induction false} ShiftWraps(t: seq<byte>, c: nat, n: nat, end: nat, i: nat)
    requires n <= end < c + n <= |t| && 1 <= i <= n + 1
    ensures ShiftFrom(Shifting(t, c, n, end, i), c, n, end, i) == Shifting(t, c, n, end, n + 1)
    decreases n + 1 - i
  {
    if i <= n {
      var now, d := Shifting(t, c, n, end, i), c + n - end;
      assert now[c + n - i] == t[c + n - 1 - Wrap(i - 1, d)] by {
        assert i > d ==> Wrap(i - 1, d) == Wrap(i - 1 - d, d);
      }
      var next, after := now[end - i := now[c + n - i]][c + n - i := 0], Shifting(t, c, n, end, i + 1);
      assert forall q :: 0 <= q < |t| ==> next[q] == after[q];
      assert next == after;
      ShiftWraps(t, c, n, end, i + 1);
    }
  }

  /** The first `end` bytes when more than `end` are written: the bytes behind "::" end at `end`, wrap
      around where they run over themselves, and leave zeros from their old place on. */
  function Overrun(before: seq<byte>, after: seq<byte>, end: nat): (r: seq<byte>)
    requires |after| <= end < |before| + |after|
    ensures |r| == end
  {
    seq(end, p requires 0 <= p < end =>
      if p < end - |after| then before[p]
      else if p < |before| then after[|after| - 1 - Wrap(end - 1 - p, |before| + |after| - end)]
      else 0)
  }

  lemma ShiftOverruns(before: seq<byte>, after: seq<byte>, end: nat)
    requires |after| <= end < |before| + |after| <= 16
    ensures ShiftFrom(before + after + Zeros(16 - |before + after|), |before|, |after|, end, 1)[..end]
            == Overrun(before, after, end)
  {
    var t := before + after + Zeros(16 - |before + after|);
    assert Shifting(t, |before|, |after|, end, 1) == t;
    ShiftWraps(t, |before|, |after|, end, 1);
    var r := Shifting(t, |before|, |after|, end, |after| + 1);
    forall p | 0 <= p < end
      ensures r[p] == Overrun(before, after, end)[p]
    {
      if end - |after| <= p < |before| {
        var k := Wrap(end - 1 - p, |before| + |after| - end);
        assert k <= end - 1 - p;
        assert t[|before| + |after| - 1 - k] == after[|after| - 1 - k];
      }
    }
  }

  /** Where the prefix ends in front of "::", the bytes behind it replace the last ones of the prefix. */
  lemma OverrunReplaces(before: seq<byte>, after: seq<byte>, end: nat)
    requires after != [] && |after| <= end <= |before|
    ensures Overrun(before, after, end) == before[..end - |after|] + after
  {
    forall p | end - |after| <= p < end
      ensures Overrun(before, after, end)[p] == after[p - (end - |after|)]
    {
      assert Wrap(end - 1 - p, |before| + |after| - end) == end - 1 - p;
    }
  }

  /** The bytes laid out: of the buffer's sixteen, those the shift ends at. */
  function Layout(net: Network): (b: seq<byte>)
    requires net.Length() <= 128 && |net.Before()| + |net.After()| <= 16 && |net.After()| <= net.Span()
    ensures |b| >= net.Span()
  {
    if net.After() == [] then net.Before() + Zeros(16 - |net.Before()|)
    else if |net.Before()| + |net.After()| <= net.Span() then
      net.Before() + Zeros(net.Span() - |net.Before()| - |net.After()|) + net.After()
    else Overrun(net.Before(), net.After(), net.Span())
  }

  /** Without "::" the prefix length asks for an exact number of groups. With it there may be fewer, and
      more; but exactly as many are refused where some stand behind "::". */
  ghost predicate Accepted(net: Network)
    requires net.Length() <= 128
  {
    if !net.compressed then |net.Before()| == net.Span()
    else net.After() == [] || (|net.Before()| + |net.After()| != net.Span() && |net.After()| <= net.Span())
  }

  /** What the parser answers to every valid network. */
  lemma OutcomeOf(net: Network, r: Outcome)
    requires net.Valid() && r == Parse(net.Text())
    ensures net.compressed && |net.After()| > net.Span() ==> r == Undefined
    ensures !(net.compressed && |net.After()| > net.Span()) ==>
              (net.Length() + 7) / 8 <= |Layout(net)|
              && r == if Accepted(net) then Parsed(net.Length(), Layout(net)[..(net.Length() + 7) / 8]) else Failure
  {
    hide Laid, Parse, Zeros, Network.Text, Network.Before, Overrun;
    ParsesText(net);
    var before, after := net.Before(), net.After();
    if !net.compressed {
      LaidPlain(before, net.Length(), net.quad.Some?);
      assert before + after == before;
    } else if after == [] || |before| + |after| < net.Span() {
      LaidFits(before, after, net.Length(), net.quad.Some?);
    } else {
      LaidBeyond(before, after, net.Length(), net.quad.Some?);
    }
  }

  lemma LaidPlain(before: seq<byte>, bits: nat, v4: bool)
    requires bits <= 128 && |before| <= 16
    ensures Laid(before, -1, bits, v4)
            == if |before| != 2 * GroupCount(bits, v4) then Failure
               else Parsed(bits, (before + Zeros(16 - |before|))[..(bits + 7) / 8])
  {}

  lemma LaidBeyond(before: seq<byte>, after: seq<byte>, bits: nat, v4: bool)
    requires after != [] && bits <= 128 && 2 * GroupCount(bits, v4) <= |before| + |after| <= 16
    ensures var end := 2 * GroupCount(bits, v4);
            Laid(before + after, |before|, bits, v4)
            == if |before| + |after| == end then Failure
               else if |after| > end then Undefined
               else Parsed(bits, Overrun(before, after, end)[..(bits + 7) / 8])
  {
    hide Overrun;
    var end := 2 * GroupCount(bits, v4);
    if |after| <= end < |before| + |after| {
      ShiftOverruns(before, after, end);
      var t := before + after + Zeros(16 - |before + after|);
      var r := ShiftFrom(t, |before|, |after|, end, 1);
      assert r[..(bits + 7) / 8] == r[..end][..(bits + 7) / 8];
    }
  }

  lemma LaidFits(before: seq<byte>, after: seq<byte>, bits: nat, v4: bool)
    requires |before| + |after| <= 16 && bits <= 128
    requires after == [] || |before| + |after| < 2 * GroupCount(bits, v4)
    ensures var end := 2 * GroupCount(bits, v4);
            var lay := if after == [] then before + Zeros(16 - |before|)
                       else before + Zeros(end - |before| - |after|) + after;
            (bits + 7) / 8 <= end && Laid(before + after, |before|, bits, v4) == Parsed(bits, lay[..(bits + 7) / 8])
  {
    var end := 2 * GroupCount(bits, v4);
    var t := before + after + Zeros(16 - |before + after|);
    if after == [] {
      assert before + after == before;
      NoShift(t, |before|, end);
    } else {
      ShiftedLayout(before, after, end);
      var r := ShiftFrom(t, |before|, |after|, end, 1);
      assert r[..(bits + 7) / 8] == r[..end][..(bits + 7) / 8];
    }
  }

  lemma ShiftedLayout(before: seq<byte>, after: seq<byte>, end: nat)
    requires |before| + |after| < end <= 16
    ensures var t := before + after + Zeros(16 - |before + after|);
            var lay := before + Zeros(end - |before| - |after|) + after;
            ShiftFrom(t, |before|, |after|, end, 1)[..end] == lay
  {
    var gap, behind := end - |before| - |after|, Zeros(16 - end);
    var t := before + after + Zeros(16 - |before + after|);
    assert t == before + after[..|after| - 0] + Zeros(gap) + after[|after| - 0..] + behind;
    ShiftLays(before, after, gap, behind, 0);
  }

  // ----- Against the address denoted ------------------------------------------------

  lemma BitOfParts(before: seq<byte>, gap: nat, after: seq<byte>, i: nat)
    requires i < 8 * (|before| + gap + |after|)
    ensures BitAt(before + Zeros(gap) + after, i)
            == if i < 8 * |before| then BitAt(before, i)
               else if i < 8 * (|before| + gap) then false
               else BitAt(after, i - 8 * (|before| + gap))
  {
    var s := before + Zeros(gap) + after;
    if i >= 8 * (|before| + gap) {
      var k := i - 8 * (|before| + gap);
      assert i / 8 == |before| + gap + k / 8 && i % 8 == k % 8;
    } else if i >= 8 * |before| {
      assert s[i / 8] == 0;
      ZeroHasNoBits(i % 8);
    }
  }

  lemma ZeroHasNoBits(j: nat)
    requires j < 8
    ensures !Bit(0, j)
  {
    ShiftedZero(7 - j);
  }

  lemma {:induction false} ShiftedZero(n: nat)
    ensures Shifted(0, n) == 0
  {
    if n > 0 {
      ShiftedZero(n - 1);
    }
  }

  /** The groups behind "::" have no one-bit inside the prefix, laid out over `span` bytes. */
  ghost predicate ClearInside(after: seq<byte>, span: nat, bits: nat)
    requires |after| <= span
  {
    forall j :: 0 <= j < 8 * |after| && 8 * (span - |after|) + j < bits ==> !BitAt(after, j)
  }

  lemma {:induction false} AgreementClears(before: seq<byte>, after: seq<byte>, span: nat, bits: nat, j: nat)
    requires |before| + |after| < span < 16 && bits <= 8 * span
    requires Agree(before + Zeros(span - |before| - |after|) + after, before + Zeros(16 - |before| - |after|) + after, bits)
    requires j < 8 * |after| && 8 * (span - |after|) + j < bits
    ensures !BitAt(after, j)
    decreases j
  {
    var i := 8 * (span - |after|) + j;
    BitOfParts(before, span - |before| - |after|, after, i);
    BitOfParts(before, 16 - |before| - |after|, after, i);
    var shift := 8 * (16 - span);
    assert BitAt(before + Zeros(span - |before| - |after|) + after, i)
           == BitAt(before + Zeros(16 - |before| - |after|) + after, i);
    if j >= shift {
      AgreementClears(before, after, span, bits, j - shift);
    }
  }

  lemma AgreesIffClear(before: seq<byte>, after: seq<byte>, span: nat, bits: nat)
    requires |before| + |after| < span <= 16 && bits <= 8 * span
    ensures Agree(before + Zeros(span - |before| - |after|) + after, before + Zeros(16 - |before| - |after|) + after, bits)
            <==> span == 16 || ClearInside(after, span, bits)
  {
    var lay := before + Zeros(span - |before| - |after|) + after;
    var denoted := before + Zeros(16 - |before| - |after|) + after;
    if span < 16 {
      if Agree(lay, denoted, bits) {
        forall j | 0 <= j < 8 * |after| && 8 * (span - |after|) + j < bits
          ensures !BitAt(after, j)
        {
          AgreementClears(before, after, span, bits, j);
        }
      }
      if ClearInside(after, span, bits) {
        forall i | 0 <= i < bits
          ensures BitAt(lay, i) == BitAt(denoted, i)
        {
          BitOfParts(before, span - |before| - |after|, after, i);
          BitOfParts(before, 16 - |before| - |after|, after, i);
        }
      }
    }
  }

  /** Where more bytes are written than the prefix asks for, those the shift puts over others have the
      same bits inside the prefix. */
  ghost predicate Repeats(before: seq<byte>, after: seq<byte>, end: nat, bits: nat)
    requires |after| <= end < |before| + |after|
  {
    forall i :: 8 * (end - |after|) <= i < bits && i < 8 * |before| && i < 8 * end ==>
      BitAt(before, i) == Bit(after[|after| - 1 - Wrap(end - 1 - i / 8, |before| + |after| - end)], i % 8)
  }

  lemma OverrunBit(before: seq<byte>, after: seq<byte>, end: nat, i: nat)
    requires |after| <= end < |before| + |after| && i < 8 * end
    ensures BitAt(Overrun(before, after, end), i)
            == if i < 8 * (end - |after|) then BitAt(before, i)
               else if i < 8 * |before| then
                 Bit(after[|after| - 1 - Wrap(end - 1 - i / 8, |before| + |after| - end)], i % 8)
               else false
  {
    if i >= 8 * |before| {
      ZeroHasNoBits(i % 8);
    }
  }

  lemma AgreesIffRepeats(before: seq<byte>, after: seq<byte>, end: nat, bits: nat)
    requires |after| <= end < |before| + |after| <= 16 && bits <= 8 * end
    ensures Agree(Overrun(before, after, end), before + Zeros(16 - |before| - |after|) + after, bits)
            <==> Repeats(before, after, end, bits) && ClearInside(after, 16, bits)
  {
    hide Overrun, BitAt, Bit;
    var lay, denoted := Overrun(before, after, end), before + Zeros(16 - |before| - |after|) + after;
    forall i | 0 <= i < bits
      ensures BitAt(lay, i) == if i < 8 * (end - |after|) then BitAt(before, i)
                               else if i < 8 * |before| then
                                 Bit(after[|after| - 1 - Wrap(end - 1 - i / 8, |before| + |after| - end)], i % 8)
                               else false
      ensures BitAt(denoted, i) == if i < 8 * |before| then BitAt(before, i)
                                   else if i < 8 * (16 - |after|) then false
                                   else BitAt(after, i - 8 * (16 - |after|))
    {
      OverrunBit(before, after, end, i);
      BitOfParts(before, 16 - |before| - |after|, after, i);
    }
    if Agree(lay, denoted, bits) {
      forall j | 0 <= j < 8 * |after| && 8 * (16 - |after|) + j < bits
        ensures !BitAt(after, j)
      {
        assert BitAt(lay, 8 * (16 - |after|) + j) == BitAt(denoted, 8 * (16 - |after|) + j);
      }
    }
  }

  /** The networks the parser gives their textbook meaning: it accepts them, and the groups behind "::"
      - have no one-bit inside the prefix where fewer groups are written than the prefix asks for, unless
        it reaches into the last group;
      - repeat what they overwrite where there are more. */
  ghost predicate Textbook(net: Network)
    requires net.Valid()
  {
    Accepted(net)
    && (net.compressed && net.After() != [] ==>
          if |net.Before()| + |net.After()| < net.Span() then
            net.Span() == 16 || ClearInside(net.After(), net.Span(), net.Length())
          else Repeats(net.Before(), net.After(), net.Span(), net.Length()) && ClearInside(net.After(), 16, net.Length()))
  }

  /** The parser gives the first bits of the address denoted exactly for these. */
  lemma PrefixIsDenoted(net: Network, r: Outcome)
    requires net.Valid() && r == Parse(net.Text())
    ensures r.Parsed? ==> r.bits == net.Length() && |r.bytes| == (r.bits + 7) / 8
    ensures r.Parsed? && Agree(r.bytes, net.Denoted(), r.bits) <==> Textbook(net)
  {
    hide Parse, Zeros, Network.Text, Network.Before, Network.After, ClearInside, Agree, Repeats, Overrun;
    OutcomeOf(net, r);
    PlainHasNoTail(net);
    if r.Parsed? {
      PrefixAgrees(Layout(net), net.Denoted(), net.Length());
      LayoutAgrees(net.Before(), net.After(), net.Span(), net.Length());
    }
  }

  lemma PlainHasNoTail(net: Network)
    ensures !net.compressed ==> net.After() == []
  {}

  lemma LayoutAgrees(before: seq<byte>, after: seq<byte>, span: nat, bits: nat)
    requires |before| + |after| <= 16 && |after| <= span <= 16 && bits <= 8 * span
    requires after != [] ==> |before| + |after| != span
    ensures var lay := if after == [] then before + Zeros(16 - |before|)
                       else if |before| + |after| < span then before + Zeros(span - |before| - |after|) + after
                       else Overrun(before, after, span);
            var denoted := before + Zeros(16 - |before| - |after|) + after;
            Agree(lay, denoted, bits)
            <==> (after != [] ==> if |before| + |after| < span then span == 16 || ClearInside(after, span, bits)
                                  else Repeats(before, after, span, bits) && ClearInside(after, 16, bits))
  {
    hide BitAt, ClearInside, Repeats, Overrun;
    if after == [] {
      assert before + Zeros(16 - |before|) + [] == before + Zeros(16 - |before|);
    } else if |before| + |after| < span {
      AgreesIffClear(before, after, span, bits);
    } else {
      AgreesIffRepeats(before, after, span, bits);
    }
  }

  lemma PrefixAgrees(s: seq<byte>, t: seq<byte>, bits: nat)
    requires (bits + 7) / 8 <= |s| && bits <= 8 * |t|
    ensures Agree(s[..(bits + 7) / 8], t, bits) <==> Agree(s, t, bits)
  {
    assert forall i :: 0 <= i < bits ==> BitAt(s[..(bits + 7) / 8], i) == BitAt(s, i);
  }

  /** For these, and for no others, the addresses in the parsed network are those that share the first
      bits of the address denoted. */
  lemma ParsedIsDenoted(net: Network, r: Outcome)
    requires net.Valid() && r == Parse(net.Text())
    ensures r.Parsed? ==> r.bits == net.Length() && |r.bytes| == (r.bits + 7) / 8
    ensures Textbook(net) <==>
            r.Parsed? && forall a: seq<byte> :: |a| == 16 ==> (Agree(a, r.bytes, r.bits) <==> Agree(a, net.Denoted(), r.bits))
  {
    hide Parse, Zeros, Network.Text, Network.Before, Network.After, ClearInside, BitAt, Textbook;
    PrefixIsDenoted(net, r);
    if Textbook(net) {
      assert forall i :: 0 <= i < r.bits ==> BitAt(r.bytes, i) == BitAt(net.Denoted(), i);
    } else if r.Parsed? {
      var d := net.Denoted();
      assert Agree(d, d, r.bits) && !Agree(d, r.bytes, r.bits);
    }
  }

  // ----- Matching -------------------------------------------------------------------

  /** The library's conversions, as the answers they give. */
  datatype Library = Library(pton4: string -> Option<seq<byte>>, pton6: string -> Option<seq<byte>>,
                             netPton4: string -> Option<(seq<byte>, nat)>)
  {
    ghost predicate Lawful() {
      && (forall s :: pton4(s).Some? ==> |pton4(s).value| == 4)
      && (forall s :: pton6(s).Some? ==> |pton6(s).value| == 16)
      && (forall s :: netPton4(s).Some? ==> |netPton4(s).value.0| == 4 && netPton4(s).value.1 <= 32)
    }
  }

  lemma {:induction false} ParsedShape(s: Scan)
    requires s.Scan? ==> |s.out| <= 16 && -1 <= s.colon <= |s.out| && AllHex(s.token)
    requires s.Scan? && s.bits.Some? ==> s.bits.value <= 128
    ensures var r := Concluded(s); r.Parsed? ==> r.bits <= 128 && |r.bytes| == (r.bits + 7) / 8
  {}

  /** None: the parser's behaviour is undefined. `junk` is what the unwritten result holds. */
  method MatchCidr(ip: string, network: string, lib: Library, junk: seq<byte>, little: bool) returns (r: Option<bool>)
    requires lib.Lawful() && |junk| == 16
    ensures (':' in ip) != (':' in network) ==> r == Some(false)
    ensures ':' !in ip && ':' !in network ==>
              r == Some(lib.pton4(ip).Some? && lib.netPton4(network).Some?
                        && var (n, bits) := lib.netPton4(network).value;
                           Agree(lib.pton4(ip).value, n, bits) && forall i :: bits <= i < 32 ==> !BitAt(n, i))
    ensures ':' in ip && ':' in network && lib.pton6(ip).Some? && Parse(network).Parsed? ==>
              Parse(network).bits <= 128 && |Parse(network).bytes| == (Parse(network).bits + 7) / 8
              && r == Some(Agree(lib.pton6(ip).value, Parse(network).bytes, Parse(network).bits))
    ensures ':' in ip && ':' in network && (lib.pton6(ip).None? || Parse(network).Failure?) ==> r == Some(false)
  {
    hide BitAt, Scanned;
    if (':' in ip) != (':' in network) {
      return Some(false);
    }
    if ':' !in ip {
      var a, n := lib.pton4(ip), lib.netPton4(network);
      if a.Some? {
        if n.Some? {
          Match4IsPrefixTest(a.value, n.value.0, n.value.1, little);
          return Some(Match4(a.value, n.value.0, n.value.1, little));
        }
      }
    } else {
      var a := lib.pton6(ip);
      if a.Some? {
        var parsed := InetNetPton(network);
        if parsed.Undefined? {
          return None;
        }
        if parsed.Parsed? {
          if network[0] == ':' {
            ParsedShape(Scanned(network[1..], [], -1, ""));
          } else {
            ParsedShape(Scanned(network, [], -1, ""));
          }
          var rest := junk[..16 - |parsed.bytes|];
          RestIsIgnored(a.value, parsed.bytes, rest, rest, parsed.bits, little);
          return Some(Match6(a.value, parsed.bytes + rest, parsed.bits, little));
        }
      }
    }
    return Some(false);
  }

  // ----- Where the code departs from the textbook -----------------------------------

  /** The groups of a text up to its ninth, the "::" among them if there is one, and each with its colon;
      the colon a leading "::" has more is skipped. */
  function Leading(head: seq<string>, compressed: bool, tail: seq<string>): string {
    Led(head) + if compressed then ":" + Led(tail) else ""
  }

  ghost predicate Nine(head: seq<string>, compressed: bool, tail: seq<string>, more: string) {
    Groups(head) && Groups(tail) && |head| + |tail| == 9 && (!compressed ==> tail == []) && more != ""
  }

  /** Nine groups, each followed by a colon, and anything behind them. */
  ghost predicate Overlong(text: string) {
    exists head, compressed, tail, more :: Nine(head, compressed, tail, more)
      && text == (if head == [] then ":" else "") + (Leading(head, compressed, tail) + more)
  }

  lemma {:induction false} LedOverflows(groups: seq<string>, more: string, out: seq<byte>, colon: int)
    requires Groups(groups) && more != "" && |out| <= 16 < |out| + 2 * |groups| && -1 <= colon <= |out|
    ensures Scanned(Led(groups) + more, out, colon, "") == TooMany
    decreases |groups|
  {
    hide Scanned, HexValue, WordBytes;
    LedFirst(groups, more);
    GroupScan(groups[0], Led(groups[1..]) + more, out, colon);
    if |out| + 2 <= 16 {
      LedOverflows(groups[1..], more, out + WordBytes(HexValue(groups[0])), colon);
    }
  }

  lemma LeadingOverflows(head: seq<string>, compressed: bool, tail: seq<string>, more: string)
    requires Nine(head, compressed, tail, more)
    ensures Scanned(Leading(head, compressed, tail) + more, [], -1, "") == TooMany
  {
    hide Scanned, Led, GroupBytes;
    if |head| == 9 {
      assert Leading(head, compressed, tail) + more
             == Led(head) + ((if compressed then ":" + Led(tail) else "") + more);
      LedOverflows(head, (if compressed then ":" + Led(tail) else "") + more, [], -1);
    } else {
      var rest := Led(tail) + more;
      assert Leading(head, compressed, tail) + more == Led(head) + (":" + rest);
      LedScan(head, ":" + rest, [], -1);
      assert [] + GroupBytes(head) == GroupBytes(head);
      ScanColon(":" + rest, GroupBytes(head), -1, "");
      assert (":" + rest)[1..] == rest;
      LedOverflows(tail, more, GroupBytes(head), |GroupBytes(head)|);
    }
  }

  lemma LeadingFirst(g: string, groups: seq<string>, compressed: bool, tail: seq<string>, more: string)
    ensures Leading([g] + groups, compressed, tail) + more == g + ":" + (Leading(groups, compressed, tail) + more)
  {
    assert ([g] + groups)[1..] == groups;
  }

  lemma LeadingGap(tail: seq<string>, more: string)
    ensures Leading([], true, tail) + more == ":" + (Leading(tail, false, []) + more)
  {
    assert Led([]) + (":" + Led(tail)) == ":" + Led(tail);
  }

  lemma LeadingNone(more: string)
    ensures Leading([], false, []) + more == more
  {}

  /** Only at a colon is there a group too many. */
  lemma OverflowMeans(rest: string, out: seq<byte>, colon: int, token: string)
    requires |out| <= 16 && -1 <= colon <= |out| && AllHex(token) && |token| <= 4
    requires Scanned(rest, out, colon, token) == TooMany
    ensures rest != "" && (IsHex(rest[0]) || rest[0] == ':')
    ensures IsHex(rest[0]) ==> |token| < 4
    ensures rest[0] == ':' ==> if token == "" then colon == -1 else |rest| > 1
  {
    hide QuadScan, PrefixScan;
    if rest != "" && rest[0] == '.' && |out| + 4 <= 16 {
      QuadEnds(token + rest, out, colon);
    }
    if rest != "" && rest[0] == '/' {
      PrefixEnds(rest[1..], out, colon, token);
    }
  }

  lemma QuadEnds(s: string, out: seq<byte>, colon: int)
    requires |out| + 4 <= 16 && -1 <= colon <= |out|
    ensures QuadScan(s, out, colon) != TooMany
  {}

  lemma PrefixEnds(s: string, out: seq<byte>, colon: int, token: string)
    ensures PrefixScan(s, out, colon, token) != TooMany
  {}

  /** Conversely, the scan that runs out of room has read nine groups. */
  lemma {:induction false} OverflowHasNine(rest: string, out: seq<byte>, colon: int, token: string)
    returns (head: seq<string>, compressed: bool, tail: seq<string>, more: string)
    requires |out| <= 16 && |out| % 2 == 0 && -1 <= colon <= |out| && AllHex(token) && |token| <= 4
    requires Scanned(rest, out, colon, token) == TooMany
    ensures Groups(head) && Groups(tail) && |out| + 2 * (|head| + |tail|) == 18 && more != ""
    ensures (compressed ==> colon == -1) && (!compressed ==> tail == [])
    ensures token + rest == Leading(head, compressed, tail) + more
    ensures head == [] ==> token == "" && rest[0] == ':'
    decreases |rest|
  {
    hide Scanned, Leading, HexValue;
    OverflowMeans(rest, out, colon, token);
    if IsHex(rest[0]) {
      assert AllHex(token + [rest[0]]);
      ScanHex(rest, out, colon, token);
      head, compressed, tail, more := OverflowHasNine(rest[1..], out, colon, token + [rest[0]]);
      assert token + rest == token + [rest[0]] + rest[1..];
    } else if token == "" {
      ScanColon(rest, out, colon, token);
      var groups, again, none;
      groups, again, none, more := OverflowHasNine(rest[1..], out, |out|, "");
      head, compressed, tail := [], true, groups;
      LeadingGap(tail, more);
      assert token + rest == ":" + ("" + rest[1..]);
    } else if |out| + 2 > 16 {
      head, compressed, tail, more := [token], false, [], rest[1..];
      LeadingFirst(token, [], false, [], more);
      assert [token] + [] == [token] && Leading([], false, []) + more == more by { LeadingNone(more); }
      assert token + rest == token + ":" + rest[1..];
    } else {
      ScanColon(rest, out, colon, token);
      head, compressed, tail, more := OverflowHasNine(rest[1..], out + WordBytes(HexValue(token)), colon, "");
      LeadingFirst(token, head, compressed, tail, more);
      head := [token] + head;
      assert token + rest == token + ":" + ("" + rest[1..]);
    }
  }

  // ----- What is accepted at all ----------------------------------------------------

  /** How a text ends behind its last colon: with a group or nothing and perhaps a prefix length, or with
      what the reader of dotted quads accepts. */
  datatype Ending = Plain(group: string, bits: Option<nat>) | WithQuad(quad: string) {
    ghost predicate Valid() {
      match this
      case Plain(group, bits) => |group| <= 4 && AllHex(group) && (bits.Some? ==> bits.value <= 128)
      case WithQuad(quad) => Octets(quad, [], 0, 0).Some?
    }

    function Text(): string {
      match this
      case Plain(group, bits) => group + Suffix(bits)
      case WithQuad(quad) => quad
    }

    function Bytes(): seq<byte> {
      match this
      case Plain(group, _) => if group != "" && AllHex(group) then WordBytes(HexValue(group)) else []
      case WithQuad(quad) =>
        match Octets(quad, [], 0, 0)
        case Some((octets, _)) => octets + Zeros(4 - |octets|)
        case None => []
    }

    function Length(): nat {
      match this
      case Plain(_, bits) => if bits.Some? then bits.value else 128
      case WithQuad(quad) =>
        match Octets(quad, [], 0, 0)
        case Some((_, Some(bits))) => bits
        case _ => 128
    }
  }

  /** Where the scan of such a text ends. */
  ghost function ScanOf(written: seq<byte>, colon: int, ending: Ending): Scan
    requires ending.Valid()
  {
    match ending
    case Plain(group, bits) => Scan(written, colon, group, bits, false)
    case WithQuad(quad) => Scan(written + ending.Bytes(), colon, "", Octets(quad, [], 0, 0).value.1, true)
  }

  /** The scan has read groups, perhaps "::" and more groups, and an ending. Nothing at all is an ending
      only right behind "::", or for the empty text. */
  ghost predicate Shape(rest: string, out: seq<byte>, colon: int, token: string,
                        head: seq<string>, compressed: bool, tail: seq<string>, ending: Ending)
    requires |out| <= 16 && -1 <= colon <= |out| && AllHex(token) && |token| <= 4
  {
    && Groups(head) && Groups(tail) && ending.Valid() && (compressed ==> colon == -1) && (!compressed ==> tail == [])
    && token + rest == Leading(head, compressed, tail) + ending.Text()
    && Scanned(rest, out, colon, token)
       == ScanOf(out + (GroupBytes(head) + GroupBytes(tail)), if compressed then |out| + |GroupBytes(head)| else colon, ending)
    && (ending == Plain("", None) ==> (if compressed then tail else head) == [])
    && (rest != "" && rest[0] == ':' ==> if token == "" then head == [] && compressed else head != [])
  }

  lemma {:induction false} ScanHasShape(rest: string, out: seq<byte>, colon: int, token: string)
    returns (head: seq<string>, compressed: bool, tail: seq<string>, ending: Ending)
    requires |out| <= 16 && -1 <= colon <= |out| && AllHex(token) && |token| <= 4
    requires Scanned(rest, out, colon, token).Scan?
    ensures Shape(rest, out, colon, token, head, compressed, tail, ending)
    decreases |rest|
  {
    hide Scanned, HexValue, Shape;
    if rest != "" && IsHex(rest[0]) {
      assert |token| < 4 ==> AllHex(token + [rest[0]]);
      ScanHex(rest, out, colon, token);
      head, compressed, tail, ending := ScanHasShape(rest[1..], out, colon, token + [rest[0]]);
      HexShape(rest, out, colon, token, head, compressed, tail, ending);
    } else if rest != "" && rest[0] == ':' {
      ScanColon(rest, out, colon, token);
      if token == "" {
        var groups, again, none;
        groups, again, none, ending := ScanHasShape(rest[1..], out, |out|, "");
        GapShape(rest, out, groups, again, none, ending);
        head, compressed, tail := [], true, groups;
      } else {
        head, compressed, tail, ending := ScanHasShape(rest[1..], out + WordBytes(HexValue(token)), colon, "");
        GroupShape(rest, out, colon, token, head, compressed, tail, ending);
        head := [token] + head;
      }
    } else {
      head, compressed, tail := [], false, [];
      ending := EndsWith(rest, out, colon, token);
      EndShape(rest, out, colon, token, ending);
    }
  }

  lemma HexShape(rest: string, out: seq<byte>, colon: int, token: string,
                 head: seq<string>, compressed: bool, tail: seq<string>, ending: Ending)
    requires |out| <= 16 && -1 <= colon <= |out| && AllHex(token) && |token| < 4 && rest != "" && IsHex(rest[0])
    requires AllHex(token + [rest[0]])
    requires Shape(rest[1..], out, colon, token + [rest[0]], head, compressed, tail, ending)
    ensures Shape(rest, out, colon, token, head, compressed, tail, ending)
  {
    hide Scanned, Leading, HexValue, GroupBytes, ScanOf, Groups, Ending.Valid, Ending.Text, AllHex;
    ScanHex(rest, out, colon, token);
    assert rest[0] != ':';
    assert token + rest == token + [rest[0]] + rest[1..];
  }

  lemma GapShape(rest: string, out: seq<byte>, groups: seq<string>, again: bool, none: seq<string>, ending: Ending)
    requires |out| <= 16 && rest != "" && rest[0] == ':'
    requires Shape(rest[1..], out, |out|, "", groups, again, none, ending)
    ensures Shape(rest, out, -1, "", [], true, groups, ending)
  {
    hide Scanned, Leading, GroupBytes, ScanOf;
    ScanColon(rest, out, -1, "");
    LeadingGap(groups, ending.Text());
    assert "" + rest == ":" + ("" + rest[1..]);
    GapBytes(groups);
  }

  lemma GroupShape(rest: string, out: seq<byte>, colon: int, token: string,
                   head: seq<string>, compressed: bool, tail: seq<string>, ending: Ending)
    requires |out| + 2 <= 16 && -1 <= colon <= |out| && AllHex(token) && 0 < |token| <= 4 && |rest| > 1 && rest[0] == ':'
    requires Shape(rest[1..], out + WordBytes(HexValue(token)), colon, "", head, compressed, tail, ending)
    ensures Shape(rest, out, colon, token, [token] + head, compressed, tail, ending)
  {
    hide Scanned, Leading, HexValue, WordBytes, GroupBytes, ScanOf, Groups, Ending.Valid, Ending.Text, AllHex, HexDigit;
    OneGroupMore(token, head);
    ScanColon(rest, out, colon, token);
    LeadingFirst(token, head, compressed, tail, ending.Text());
    MoreGroups(out, token, head, tail);
    EmptyEnds(rest[1..], head, compressed, tail, ending);
    assert token + rest == token + ":" + ("" + rest[1..]);
  }

  lemma OneGroupMore(g: string, groups: seq<string>)
    requires Groups(groups) && 0 < |g| <= 4 && AllHex(g)
    ensures Groups([g] + groups)
  {}

  lemma EndShape(rest: string, out: seq<byte>, colon: int, token: string, ending: Ending)
    requires |out| <= 16 && -1 <= colon <= |out| && AllHex(token) && |token| <= 4
    requires rest == "" || (!IsHex(rest[0]) && rest[0] != ':')
    requires ending.Valid() && token + rest == ending.Text() && Scanned(rest, out, colon, token) == ScanOf(out, colon, ending)
    ensures Shape(rest, out, colon, token, [], false, [], ending)
  {
    hide Scanned, Leading, GroupBytes, ScanOf;
    LeadingNone(ending.Text());
    GapBytes([]);
    assert out + ([] + []) == out;
  }

  lemma GapBytes(tail: seq<string>)
    ensures GroupBytes([]) == [] && GroupBytes([]) + GroupBytes(tail) == GroupBytes(tail) + [] == GroupBytes(tail)
  {}

  lemma MoreGroups(out: seq<byte>, g: string, head: seq<string>, tail: seq<string>)
    requires AllHex(g)
    ensures var word := WordBytes(HexValue(g));
            && GroupBytes([g] + head) == word + GroupBytes(head)
            && out + word + (GroupBytes(head) + GroupBytes(tail)) == out + (GroupBytes([g] + head) + GroupBytes(tail))
  {
    assert ([g] + head)[1..] == head;
  }

  /** What follows a colon is not nothing. */
  lemma EmptyEnds(rest: string, head: seq<string>, compressed: bool, tail: seq<string>, ending: Ending)
    requires "" + rest == Leading(head, compressed, tail) + ending.Text()
    ensures rest != "" && ending == Plain("", None) && !compressed ==> head != []
  {
    if ending == Plain("", None) && head == [] && !compressed {
      LeadingNone(ending.Text());
    }
  }

  lemma EndsWith(rest: string, out: seq<byte>, colon: int, token: string) returns (ending: Ending)
    requires |out| <= 16 && -1 <= colon <= |out| && AllHex(token) && |token| <= 4
    requires rest == "" || (!IsHex(rest[0]) && rest[0] != ':')
    requires Scanned(rest, out, colon, token).Scan?
    ensures ending.Valid() && token + rest == ending.Text() && Scanned(rest, out, colon, token) == ScanOf(out, colon, ending)
    ensures ending == Plain("", None) ==> rest == "" && token == ""
  {
    hide Scanned, Octets, HexValue, Decimal;
    ScanEnd(rest, out, colon, token);
    if rest == "" {
      ending := Plain(token, None);
      assert token + "" == token;
    } else if rest[0] == '.' {
      ending := WithQuad(token + rest);
      var octets := Octets(token + rest, [], 0, 0).value.0;
      Associative(out, octets, Zeros(4 - |octets|));
    } else {
      var bits := PrefixLength(rest[1..], 0, 0);
      PrefixLengthIff(rest[1..], bits.value);
      ending := Plain(token, bits);
      assert rest == "/" + rest[1..];
    }
  }

  predicate EndsInZero(text: string) {
    |text| >= 2 && text[|text| - 2..] == "/0"
  }

  lemma EndsLater(rest: string)
    requires rest != ""
    ensures EndsInZero(rest[1..]) ==> EndsInZero(rest)
  {}

  lemma EndsBehind(token: string, rest: string)
    requires AllHex(token) && rest != "" && rest[0] == '.'
    ensures EndsInZero(token + rest) ==> EndsInZero(rest)
  {
    var s := token + rest;
    if |rest| == 1 {
      assert s[|s| - 1] == '.';
      assert |s| >= 2 ==> s[|s| - 2..][1] == '.';
    } else {
      assert rest[|rest| - 2..] == s[|s| - 2..];
    }
  }

  lemma ZeroPrefix(rest: string)
    requires rest != "" && rest[0] == '/' && PrefixLength(rest[1..], 0, 0) == Some(0)
    ensures EndsInZero(rest)
  {
    PrefixLengthIff(rest[1..], 0);
    assert rest == [rest[0]] + rest[1..];
  }

  lemma {:induction false} ZeroAfterOctets(s: string, seen: seq<byte>, n: nat, val: nat)
    requires val <= 255 && |seen| <= 4
    requires var r := Octets(s, seen, n, val); r.Some? && r.value.1 == Some(0)
    ensures EndsInZero(s)
    decreases |s|
  {
    hide EndsInZero, PrefixLength;
    if IsDigit(s[0]) {
      ZeroAfterOctets(s[1..], seen, n + 1, val * 10 + DigitOf(s[0]));
      EndsLater(s);
    } else if s[0] == '.' {
      ZeroAfterOctets(s[1..], seen + [val], 0, 0);
      EndsLater(s);
    } else {
      ZeroPrefix(s);
    }
  }

  /** A prefix length of zero is written. */
  lemma {:induction false} ZeroIsWritten(rest: string, out: seq<byte>, colon: int, token: string)
    requires |out| <= 16 && -1 <= colon <= |out| && AllHex(token) && |token| <= 4
    requires var s := Scanned(rest, out, colon, token); s.Scan? && s.bits == Some(0)
    ensures EndsInZero(rest)
    decreases |rest|
  {
    hide Scanned, HexValue, WordBytes, Octets, PrefixLength, EndsInZero;
    if rest != "" && IsHex(rest[0]) {
      ScanHex(rest, out, colon, token);
      assert |token| < 4 ==> AllHex(token + [rest[0]]);
      ZeroIsWritten(rest[1..], out, colon, token + [rest[0]]);
      EndsLater(rest);
    } else if rest != "" && rest[0] == ':' {
      ScanColon(rest, out, colon, token);
      if token == "" {
        ZeroIsWritten(rest[1..], out, |out|, "");
      } else {
        ZeroIsWritten(rest[1..], out + WordBytes(HexValue(token)), colon, "");
      }
      EndsLater(rest);
    } else {
      ScanEnd(rest, out, colon, token);
      if rest[0] == '.' {
        ZeroAfterOctets(token + rest, [], 0, 0);
        EndsBehind(token, rest);
      } else {
        ZeroPrefix(rest);
      }
    }
  }

  lemma LengthOfParsed(s: Scan)
    requires s.Scan? ==> |s.out| <= 16 && -1 <= s.colon <= |s.out| && AllHex(s.token)
    requires s.Scan? && s.bits.Some? ==> s.bits.value <= 128
    ensures Concluded(s).Parsed? && Concluded(s).bits == 0 && s != TooMany ==> s.Scan? && s.bits == Some(0)
  {
    hide ShiftFrom, GroupCount;
  }

  /** A text in which a ninth group ends with a colon is taken for success with prefix length zero, and
      nothing is written, whatever follows: every address agrees. No other text has this answer unless it
      asks for it with "/0". */
  lemma OverlongIff(text: string, r: Outcome)
    requires r == Parse(text)
    ensures Overlong(text) ==> r == Parsed(0, [])
    ensures !EndsInZero(text) ==> (r.Parsed? && r.bits == 0 <==> Overlong(text))
    ensures Overlong(text) ==> forall a: seq<byte> :: |a| == 16 ==> Agree(a, r.bytes, r.bits)
  {
    hide Scanned, Laid, EndsInZero, Leading;
    if Overlong(text) {
      var head, compressed, tail, more :| Nine(head, compressed, tail, more)
        && text == (if head == [] then ":" else "") + (Leading(head, compressed, tail) + more);
      OverlongText(head, compressed, tail, more);
      LeadingOverflows(head, compressed, tail, more);
    }
    if r.Parsed? && r.bits == 0 {
      var skip := if text != "" && text[0] == ':' then 1 else 0;
      assert text[0..] == text;
      var s := Scanned(text[skip..], [], -1, "");
      if s == TooMany {
        var head, compressed, tail, more := OverflowHasNine(text[skip..], [], -1, "");
        assert "" + text[skip..] == text[skip..];
        OverlongText(head, compressed, tail, more);
        assert text == (if skip == 1 then ":" else "") + text[skip..];
      } else {
        LengthOfParsed(s);
        ZeroIsWritten(text[skip..], [], -1, "");
        if skip == 1 {
          EndsLater(text);
        }
      }
    }
  }

  lemma OverlongText(head: seq<string>, compressed: bool, tail: seq<string>, more: string)
    requires Nine(head, compressed, tail, more)
    ensures var text := Leading(head, compressed, tail) + more;
            text != "" && if head == [] then text[0] == ':' else text[0] != ':'
  {
    if head != [] {
      assert (Leading(head, compressed, tail) + more)[0] == head[0][0];
    } else {
      assert Led(head) == "";
    }
  }

  /** The text says this, and the parser lays out the bytes it says. */
  ghost predicate ReadAs(text: string, r: Outcome, head: seq<string>, compressed: bool, tail: seq<string>, ending: Ending) {
    && Groups(head) && Groups(tail) && ending.Valid() && (!compressed ==> tail == [])
    && (ending == Plain("", None) ==> (if compressed then tail else head) == [])
    && text == (if compressed && head == [] then ":" else "") + (Leading(head, compressed, tail) + ending.Text())
    && var written := GroupBytes(head) + GroupBytes(tail) + ending.Bytes();
       |written| <= 16 && r == Laid(written, if compressed then |GroupBytes(head)| else -1, ending.Length(), ending.WithQuad?)
  }

  /** Every text that is not refused, and is not one of too many groups, is groups of at most four digits
      with at most one "::" among them and an ending, and is laid out as that. */
  lemma NotRefusedMeans(text: string, r: Outcome)
    returns (head: seq<string>, compressed: bool, tail: seq<string>, ending: Ending)
    requires r == Parse(text) && r != Failure && !Overlong(text)
    ensures ReadAs(text, r, head, compressed, tail, ending)
  {
    hide Scanned, Laid, Shape, Overlong;
    var skip := if text != "" && text[0] == ':' then 1 else 0;
    assert text[0..] == text;
    var rest := text[skip..];
    var s := Scanned(rest, [], -1, "");
    if s == TooMany {
      OverlongIff(text, r);
      TooManyIsOverlong(text, skip);
    }
    head, compressed, tail, ending := ScanHasShape(rest, [], -1, "");
    ShapeIsReading(text, skip, r, head, compressed, tail, ending);
  }

  lemma TooManyIsOverlong(text: string, skip: nat)
    requires skip == if text != "" && text[0] == ':' then 1 else 0
    requires skip == 1 ==> |text| > 1 && text[1] == ':'
    requires Scanned(text[skip..], [], -1, "") == TooMany
    ensures Overlong(text)
  {
    hide Scanned, Leading;
    var head, compressed, tail, more := OverflowHasNine(text[skip..], [], -1, "");
    assert "" + text[skip..] == text[skip..];
    OverlongText(head, compressed, tail, more);
    assert text == (if skip == 1 then ":" else "") + text[skip..];
  }

  lemma ShapeIsReading(text: string, skip: nat, r: Outcome,
                       head: seq<string>, compressed: bool, tail: seq<string>, ending: Ending)
    requires skip == if text != "" && text[0] == ':' then 1 else 0
    requires skip == 1 ==> |text| > 1 && text[1] == ':'
    requires Shape(text[skip..], [], -1, "", head, compressed, tail, ending)
    requires Scanned(text[skip..], [], -1, "").Scan?
    requires r == Concluded(Scanned(text[skip..], [], -1, "")) && r != Failure
    ensures ReadAs(text, r, head, compressed, tail, ending)
  {
    hide Scanned, Laid, Leading, GroupBytes, Octets, HexValue, Concluded, ScanOf, Ending.Bytes, Ending.Text, Ending.Valid, Groups,
         Ending.Length;
    var rest := text[skip..];
    assert "" + rest == rest;
    assert text == (if skip == 1 then ":" else "") + rest;
    var written := GroupBytes(head) + GroupBytes(tail);
    assert [] + written == written;
    ConcludesAs(written, if compressed then |GroupBytes(head)| else -1, ending);
    if skip == 0 && compressed && head == [] {
      StartsWithColon(tail, ending.Text());
    }
  }

  lemma ConcludesAs(written: seq<byte>, colon: int, ending: Ending)
    requires ending.Valid() && -1 <= colon <= |written|
    requires var s := ScanOf(written, colon, ending); |s.out| <= 16
    ensures var s := ScanOf(written, colon, ending);
            && -1 <= s.colon <= |s.out| && AllHex(s.token) && (s.bits.Some? ==> s.bits.value <= 128) && ending.Length() <= 128
            && (Concluded(s) != Failure ==>
                  |written + ending.Bytes()| <= 16
                  && Concluded(s) == Laid(written + ending.Bytes(), colon, ending.Length(), ending.WithQuad?))
  {
    hide Laid, Octets, HexValue;
    assert written + [] == written;
  }

  lemma StartsWithColon(tail: seq<string>, more: string)
    ensures var t := Leading([], true, tail) + more; t != "" && t[0] == ':'
  {
    LeadingGap(tail, more);
  }

  /** Among them is one that no network is written as: a colon in front of the prefix length is ignored. */
  lemma TrailingColon(groups: seq<string>, bits: nat)
    requires Groups(groups) && 0 < |groups| <= 8 && bits <= 128
    ensures Parse(Led(groups) + Suffix(Some(bits))) == Laid(GroupBytes(groups), -1, bits, false)
  {
    hide Scanned, Laid, GroupBytes, Decimal;
    var text := Led(groups) + Suffix(Some(bits));
    LedScan(groups, Suffix(Some(bits)), [], -1);
    assert [] + GroupBytes(groups) == GroupBytes(groups);
    SuffixScan("", Some(bits), GroupBytes(groups), -1);
    LedFirst(groups, Suffix(Some(bits)));
    assert text[0] == groups[0][0];
  }

  /** The ninth group of a network has a colon behind it. */
  predicate NinthEnds(net: Network) {
    var groups := |net.head| + |net.tail|;
    groups > 9 || (groups == 9 && (net.quad.Some? || (net.compressed && net.tail == [])))
  }

  /** Every network of more than eight groups is refused or, with a colon behind the ninth, taken for
      one of prefix length zero. */
  lemma TooManyGroups(net: Network, r: Outcome)
    requires net.WellFormed() && |net.Before()| + |net.After()| > 16 && r == Parse(net.Text())
    ensures r == if NinthEnds(net) then Parsed(0, []) else Failure
  {
    hide Scanned, Laid, Led, Rest, Suffix, GroupBytes, Concluded;
    if !net.compressed {
      RestIsText(net.head, net.quad);
      assert net.Text() == Rest(net.head, net.quad) + Suffix(net.bits) && net.Text()[0] != ':';
      RestOverflows(net.head, net.quad, net.bits, [], -1);
    } else {
      var rest := Rest(net.tail, net.quad) + Suffix(net.bits);
      CompressedText(net);
      if |net.head| > 8 {
        LedOverflows(net.head, ":" + rest, [], -1);
        assert Concluded(TooMany) == Parsed(0, []) by { TooManyMeans(); }
      } else {
        var before := GroupBytes(net.head);
        LedScan(net.head, ":" + rest, [], -1);
        assert [] + before == before;
        ScanColon(":" + rest, before, -1, "");
        assert (":" + rest)[1..] == rest;
        RestOverflows(net.tail, net.quad, net.bits, before, |before|);
      }
    }
  }

  lemma TooManyMeans()
    ensures Concluded(TooMany) == Parsed(0, [])
  {}

  lemma {:induction false} RestOverflows(groups: seq<string>, quad: Option<(byte, byte, byte, byte)>, bits: Option<nat>,
                                         out: seq<byte>, colon: int)
    requires Groups(groups) && (bits.Some? ==> bits.value <= 128) && -1 <= colon <= |out| && |out| % 2 == 0
    requires |out| <= 16 < |out| + |GroupBytes(groups) + QuadBytes(quad)|
    ensures Concluded(Scanned(Rest(groups, quad) + Suffix(bits), out, colon, ""))
            == if |out| + 2 * |groups| > 18 || (|out| + 2 * |groups| == 18 && quad.Some?) then Parsed(0, []) else Failure
    decreases |groups|
  {
    hide Scanned, Concluded, HexValue, WordBytes, QuadText, Rest, GroupBytes, Suffix;
    if groups == [] {
      NoRoomForQuad(quad.value, bits, out, colon);
      assert Rest(groups, quad) == QuadText(quad.value) by { OnlyQuad(quad.value); }
    } else if |groups| == 1 && quad.None? {
      NoRoomForGroup(groups[0], bits, out, colon);
      assert groups == [groups[0]];
    } else {
      RestIsText(groups[1..], quad);
      FirstText(groups, quad, Suffix(bits));
      GroupScan(groups[0], Rest(groups[1..], quad) + Suffix(bits), out, colon);
      TooManyMeans();
      if |out| + 2 <= 16 {
        RestOverflows(groups[1..], quad, bits, out + WordBytes(HexValue(groups[0])), colon);
      }
    }
  }

  lemma OnlyQuad(q: (byte, byte, byte, byte))
    ensures Rest([], Some(q)) == QuadText(q)
  {}

  lemma NoRoomForQuad(q: (byte, byte, byte, byte), bits: Option<nat>, out: seq<byte>, colon: int)
    requires |out| <= 16 < |out| + 4 && -1 <= colon <= |out|
    ensures Concluded(Scanned(QuadText(q) + Suffix(bits), out, colon, "")) == Failure
  {
    hide Decimal, Scanned;
    var first := Decimal(q.0);
    var more := "." + (Decimal(q.1) + "." + Decimal(q.2) + "." + Decimal(q.3) + Suffix(bits));
    assert QuadText(q) + Suffix(bits) == first + more;
    OctetDigits(q.0, more, []);
    TokenScan("", first, more, out, colon);
    assert "" + first == first;
    ScanEnd(more, out, colon, first);
  }

  lemma NoRoomForGroup(g: string, bits: Option<nat>, out: seq<byte>, colon: int)
    requires 1 <= |g| <= 4 && AllHex(g) && |out| == 16 && -1 <= colon <= |out| && (bits.Some? ==> bits.value <= 128)
    ensures Concluded(Scanned(Rest([g], None) + Suffix(bits), out, colon, "")) == Failure
  {
    hide Scanned, Laid, Suffix, HexValue, WordBytes;
    TokenScan("", g, Suffix(bits), out, colon);
    assert "" + g == g;
    SuffixScan(g, bits, out, colon);
  }

  /** Where the prefix ends in front of "::", the bytes behind "::" replace its last ones, and the prefix
      is right exactly when they are the same. */
  lemma BeyondThePrefix(net: Network, r: Outcome)
    requires net.Valid() && net.compressed && r == Parse(net.Text())
    requires net.After() != [] && |net.After()| <= net.Span() <= |net.Before()| && net.Length() == 8 * net.Span()
    ensures var kept := net.Span() - |net.After()|;
            && r == Parsed(net.Length(), net.Before()[..kept] + net.After())
            && (Agree(r.bytes, net.Denoted(), net.Length()) <==> net.Before()[kept..net.Span()] == net.After())
  {
    hide Parse, Network.Text, Network.Before, Network.After, BitAt, Overrun;
    OutcomeOf(net, r);
    var before, after, span := net.Before(), net.After(), net.Span();
    OverrunReplaces(before, after, span);
    var lay := before[..span - |after|] + after;
    assert r.bytes == lay[..span] == lay;
    BytesAreBits(lay, net.Denoted(), span);
    assert net.Denoted()[..span] == before[..span] == before[..span - |after|] + before[span - |after|..span];
  }

  /** "2001:db8:1::5/32" is such a network: five replaces db8. */
  lemma GroupsBeyondThePrefix()
    ensures Parse("2001:db8:1::5/32") == Parsed(32, [0x20, 0x01, 0x00, 0x05])
  {
    hide Parse, Network.Text, Network.Before, Network.After, Network.Denoted, Network.Valid, Agree;
    var net := Network(["2001", "db8", "1"], true, ["5"], None, Some(32));
    ExampleText(net);
    ExampleBytes(net);
    BeyondThePrefix(net, Parse(net.Text()));
  }

  lemma ExampleText(net: Network)
    requires net == Network(["2001", "db8", "1"], true, ["5"], None, Some(32))
    ensures net.Text() == "2001:db8:1::5/32"
  {
    assert Led(["2001", "db8", "1"]) == "2001:" + ("db8:" + ("1:" + ""));
    assert Decimal(32) == "32";
  }

  lemma ExampleBytes(net: Network)
    requires net == Network(["2001", "db8", "1"], true, ["5"], None, Some(32))
    ensures net.Before() == [0x20, 0x01, 0x0d, 0xb8, 0, 1] && net.After() == [0, 5] && net.Valid()
  {
    ExampleValues();
    hide HexValue;
    assert ["2001", "db8", "1"][1..] == ["db8", "1"] && ["db8", "1"][1..] == ["1"] && ["1"][1..] == [] && ["5"][1..] == [];
  }

  lemma ExampleValues()
    ensures HexValue("2001") == 0x2001 && HexValue("db8") == 0xdb8 && HexValue("1") == 1 && HexValue("5") == 5
  {
    assert "2001"[..3] == "200" && "200"[..2] == "20" && "20"[..1] == "2" && "2"[..0] == "";
    assert "db8"[..2] == "db" && "db"[..1] == "d" && "d"[..0] == "";
    assert HexValue("2") == 2 && HexValue("20") == 0x20 && HexValue("200") == 0x200 && HexValue("2001") == 0x2001;
    assert HexValue("d") == 0xd && HexValue("db") == 0xdb && HexValue("db8") == 0xdb8;
  }
}
