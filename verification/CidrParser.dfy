/** The parser of IPv6 networks in text form: groups, "::", a dotted quad and a prefix length, laid
    out in place in a buffer of sixteen bytes of which only the prefix is copied out. */
module CidrParser {
  import opened Bytes
  import opened Text
  import opened CidrMatch

  datatype Option<T> = None | Some(value: T)

  /** Parsed: the prefix length and the bytes written; the rest of the result stays unwritten.
      Undefined: the shift would write in front of its buffer. */
  datatype Outcome = Parsed(bits: nat, bytes: seq<byte>) | Failure | Undefined

  // ----- Numbers --------------------------------------------------------------------

  predicate IsHex(c: char) {
    IsDigit(c) || 'a' <= c <= 'f' || 'A' <= c <= 'F'
  }

  predicate AllHex(s: string) {
    forall i :: 0 <= i < |s| ==> IsHex(s[i])
  }

  function HexDigit(c: char): (d: nat)
    requires IsHex(c)
    ensures d < 16
  {
    if IsDigit(c) then c as int - '0' as int
    else if 'a' <= c <= 'f' then c as int - 'a' as int + 10
    else c as int - 'A' as int + 10
  }

  function HexValue(s: string): nat
    requires AllHex(s)
  {
    if s == "" then 0 else HexValue(s[..|s| - 1]) * 16 + HexDigit(s[|s| - 1])
  }

  /** A 16-bit number in network order. */
  function WordBytes(v: nat): (b: seq<byte>)
    ensures |b| == 2
  {
    [v / 256 % 256, v % 256]
  }

  function DigitOf(c: char): nat
    requires IsDigit(c)
  {
    c as int - '0' as int
  }

  /** The decimal prefix length: no leading zeros, at most 128. */
  function PrefixLength(s: string, n: nat, val: nat): (r: Option<nat>)
    requires val <= 128
    ensures r.Some? ==> r.value <= 128
  {
    if s == "" then if n == 0 then None else Some(val)
    else if !IsDigit(s[0]) || (n != 0 && val == 0) || val * 10 + DigitOf(s[0]) > 128 then None
    else PrefixLength(s[1..], n + 1, val * 10 + DigitOf(s[0]))
  }

  method GetBits(src: string) returns (r: Option<nat>)
    ensures r == PrefixLength(src, 0, 0)
  {
    var i, n, val := 0, 0, 0;
    while i < |src|
      invariant 0 <= i <= |src| && 0 <= n && 0 <= val <= 128
      invariant PrefixLength(src[i..], n, val) == PrefixLength(src, 0, 0)
    {
      var ch := src[i];
      i := i + 1;
      if !IsDigit(ch) { return None; }
      if n != 0 && val == 0 { return None; }
      n := n + 1;
      val := val * 10 + DigitOf(ch);
      if val > 128 { return None; }
    }
    return if n == 0 then None else Some(val);
  }

  /** A dotted quad and what follows it: its octets (missing ones are not noticed) and the prefix length. */
  function Octets(s: string, seen: seq<byte>, n: nat, val: nat): (r: Option<(seq<byte>, Option<nat>)>)
    requires val <= 255 && |seen| <= 4
    ensures r.Some? ==> |r.value.0| <= 4 && (r.value.1.Some? ==> r.value.1.value <= 128)
    decreases |s|
  {
    if s == "" then if n == 0 || |seen| > 3 then None else Some((seen + [val], None))
    else if IsDigit(s[0]) then
      if (n != 0 && val == 0) || val * 10 + DigitOf(s[0]) > 255 then None
      else Octets(s[1..], seen, n + 1, val * 10 + DigitOf(s[0]))
    else if (s[0] != '.' && s[0] != '/') || |seen| > 3 then None
    else if s[0] == '/' then
      var bits := PrefixLength(s[1..], 0, 0);
      if bits.None? then None else Some((seen + [val], bits))
    else Octets(s[1..], seen + [val], 0, 0)
  }

  method GetV4(src: string) returns (r: Option<(seq<byte>, Option<nat>)>)
    ensures r == Octets(src, [], 0, 0)
  {
    var i, n, val := 0, 0, 0;
    var seen: seq<byte> := [];
    while i < |src|
      invariant 0 <= i <= |src| && 0 <= n && 0 <= val <= 255 && |seen| <= 4
      invariant Octets(src[i..], seen, n, val) == Octets(src, [], 0, 0)
    {
      var ch := src[i];
      i := i + 1;
      if IsDigit(ch) {
        if n != 0 && val == 0 { return None; }
        n := n + 1;
        val := val * 10 + DigitOf(ch);
        if val > 255 { return None; }
      } else if ch == '.' || ch == '/' {
        if |seen| > 3 { return None; }
        if ch == '/' {
          var bits := GetBits(src[i..]);
          if bits.None? { return None; }
          return Some((seen + [val], bits));
        }
        seen := seen + [val];
        n, val := 0, 0;
      } else {
        return None;
      }
    }
    return if n == 0 || |seen| > 3 then None else Some((seen + [val], None));
  }

  // ----- The scan -------------------------------------------------------------------

  function Zeros(n: nat): (z: seq<byte>)
    ensures |z| == n && forall i :: 0 <= i < n ==> z[i] == 0
  {
    seq(n, _ => 0)
  }

  /** Where the scan ends: the bytes written, the position of "::" (or -1), the open group, the prefix
      length and whether a dotted quad was read. */
  datatype Scan = Bad | TooMany | Scan(out: seq<byte>, colon: int, token: string, bits: Option<nat>, v4: bool)

  function Scanned(rest: string, out: seq<byte>, colon: int, token: string): (r: Scan)
    requires |out| <= 16 && -1 <= colon <= |out| && AllHex(token) && |token| <= 4
    ensures r.Scan? ==> |out| <= |r.out| <= 16 && -1 <= r.colon <= |r.out| && AllHex(r.token) && |r.token| <= 4
    ensures r.Scan? && r.bits.Some? ==> r.bits.value <= 128
    decreases |rest|
  {
    if rest == "" then Scan(out, colon, token, None, false)
    else if IsHex(rest[0]) then
      if |token| == 4 then Bad else Scanned(rest[1..], out, colon, token + [rest[0]])
    else if rest[0] == ':' then
      if token == "" then if colon >= 0 then Bad else Scanned(rest[1..], out, |out|, "")
      else if |rest| == 1 then Bad
      else if |out| + 2 > 16 then TooMany
      else Scanned(rest[1..], out + WordBytes(HexValue(token)), colon, "")
    else if rest[0] == '.' && |out| + 4 <= 16 then QuadScan(token + rest, out, colon)
    else if rest[0] == '/' then PrefixScan(rest[1..], out, colon, token)
    else Bad
  }

  /** A dotted quad from the start of the open group ends the scan. */
  function QuadScan(s: string, out: seq<byte>, colon: int): (r: Scan)
    requires |out| + 4 <= 16 && -1 <= colon <= |out|
    ensures r.Scan? ==> |r.out| == |out| + 4 && r.colon == colon && r.token == ""
    ensures r.Scan? && r.bits.Some? ==> r.bits.value <= 128
  {
    var quad := Octets(s, [], 0, 0);
    if quad.None? then Bad
    else Scan(out + quad.value.0 + Zeros(4 - |quad.value.0|), colon, "", quad.value.1, true)
  }

  /** So does a prefix length. */
  function PrefixScan(s: string, out: seq<byte>, colon: int, token: string): (r: Scan)
    ensures r.Scan? ==> r.out == out && r.colon == colon && r.token == token
    ensures r.Scan? && r.bits.Some? ==> r.bits.value <= 128
  {
    var bits := PrefixLength(s, 0, 0);
    if bits.None? then Bad else Scan(out, colon, token, bits, false)
  }

  lemma HexStep(token: string, c: char)
    requires AllHex(token) && IsHex(c)
    ensures AllHex(token + [c]) && HexValue(token + [c]) == HexValue(token) * 16 + HexDigit(c)
  {
    assert (token + [c])[..|token|] == token;
  }

  lemma ScanHex(rest: string, out: seq<byte>, colon: int, token: string)
    requires |out| <= 16 && -1 <= colon <= |out| && AllHex(token) && |token| <= 4
    requires rest != "" && IsHex(rest[0])
    ensures |token| == 4 ==> Scanned(rest, out, colon, token) == Bad
    ensures |token| < 4 && AllHex(token + [rest[0]]) ==>
              Scanned(rest, out, colon, token) == Scanned(rest[1..], out, colon, token + [rest[0]])
  {}

  lemma ScanColon(rest: string, out: seq<byte>, colon: int, token: string)
    requires |out| <= 16 && -1 <= colon <= |out| && AllHex(token) && |token| <= 4
    requires rest != "" && rest[0] == ':'
    ensures Scanned(rest, out, colon, token)
            == if token == "" then if colon >= 0 then Bad else Scanned(rest[1..], out, |out|, "")
               else if |rest| == 1 then Bad
               else if |out| + 2 > 16 then TooMany
               else Scanned(rest[1..], out + WordBytes(HexValue(token)), colon, "")
  {}

  lemma ScanEnd(rest: string, out: seq<byte>, colon: int, token: string)
    requires |out| <= 16 && -1 <= colon <= |out| && AllHex(token) && |token| <= 4
    requires rest == "" || (!IsHex(rest[0]) && rest[0] != ':')
    ensures Scanned(rest, out, colon, token)
            == if rest == "" then Scan(out, colon, token, None, false)
               else if rest[0] == '.' && |out| + 4 <= 16 then QuadScan(token + rest, out, colon)
               else if rest[0] == '/' then PrefixScan(rest[1..], out, colon, token)
               else Bad
  {}

  // ----- The layout -----------------------------------------------------------------

  /** The number of 16-bit groups the result is laid out over. */
  function GroupCount(bits: nat, v4: bool): (w: nat)
    requires bits <= 128
    ensures 2 <= w <= 8
  {
    if v4 then 8 else if (bits + 15) / 16 < 2 then 2 else (bits + 15) / 16
  }

  /** The in-place shift from step `i` on: n bytes from `colon` move up to end at `end`. */
  function ShiftFrom(t: seq<byte>, colon: nat, n: nat, end: nat, i: nat): (r: seq<byte>)
    requires colon + n <= |t| && n <= end <= |t| && 1 <= i <= n + 1
    ensures |r| == |t|
    decreases n + 1 - i
  {
    if i > n then t
    else ShiftFrom(t[end - i := t[colon + n - i]][colon + n - i := 0], colon, n, end, i + 1)
  }

  /** What the parser makes of the bytes it has written. */
  function Laid(out: seq<byte>, colon: int, bits: nat, v4: bool): Outcome
    requires |out| <= 16 && -1 <= colon <= |out| && bits <= 128
  {
    var end := 2 * GroupCount(bits, v4);
    var t := out + Zeros(16 - |out|);
    if colon == -1 then
      if |out| != end then Failure else Parsed(bits, t[..(bits + 7) / 8])
    else
      var n := |out| - colon;
      if |out| == end && n != 0 then Failure
      else if n > end then Undefined
      else Parsed(bits, ShiftFrom(t, colon, n, end, 1)[..(bits + 7) / 8])
  }

  function Concluded(s: Scan): Outcome
    requires s.Scan? ==> |s.out| <= 16 && -1 <= s.colon <= |s.out| && AllHex(s.token)
    requires s.Scan? && s.bits.Some? ==> s.bits.value <= 128
  {
    match s
    case Bad => Failure
    case TooMany => Parsed(0, [])
    case Scan(out, colon, token, bits, v4) =>
      var length := if bits.Some? then bits.value else 128;
      if token == "" then Laid(out, colon, length, v4)
      else if |out| + 2 > 16 then Failure
      else Laid(out + WordBytes(HexValue(token)), colon, length, v4)
  }

  /** The whole parser, for a text without NULs. */
  function Parse(src: string): Outcome {
    if src != "" && src[0] == ':' then
      if |src| < 2 || src[1] != ':' then Failure else Concluded(Scanned(src[1..], [], -1, ""))
    else Concluded(Scanned(src, [], -1, ""))
  }

  method InetNetPton(src: string) returns (r: Outcome)
    ensures r == Parse(src)
  {
    hide Scanned, Laid;
    var start := 0;
    if |src| > 0 && src[0] == ':' {
      start := 1;
      if |src| < 2 || src[1] != ':' { return Failure; }
    }
    assert start == 0 ==> src[start..] == src;
    var tmp := new byte[16](_ => 0);
    var state, token := ScanText(src[start..], tmp);
    match state {
      case GiveUp => r := Failure;
      case TooLong => r := Parsed(0, []);
      case Open(tp, colonp, sawXdigit, val, bits, ipv4) => r := CloseGroup(tmp, tp, colonp, token, sawXdigit, val, bits, ipv4);
    }
  }

  /** The variables of the C function when its loop ends; bits is -1 without a prefix length. */
  datatype Progress = GiveUp | TooLong | Open(tp: nat, colonp: int, sawXdigit: bool, val: nat, bits: int, ipv4: bool)

  ghost predicate Matches(s: Scan, p: Progress, tmp: seq<byte>, token: string)
    requires |tmp| == 16
  {
    match p
    case GiveUp => s == Bad
    case TooLong => s == TooMany
    case Open(tp, colonp, sawXdigit, val, bits, ipv4) =>
      && tp <= 16 && -1 <= colonp <= tp && -1 <= bits <= 128 && AllHex(token)
      && sawXdigit == (token != "") && (sawXdigit ==> val == HexValue(token))
      && (forall k :: tp <= k < 16 ==> tmp[k] == 0)
      && s == Scan(tmp[..tp], colonp, token, if bits == -1 then None else Some(bits), ipv4)
  }

  /** The open group stands in the text from `curtok` to `i`. */
  ghost predicate IsToken(src: string, curtok: nat, i: nat, token: string) {
    curtok <= i <= |src| && |token| == i - curtok && forall k :: 0 <= k < |token| ==> token[k] == src[curtok + k]
  }

  lemma FromToken(src: string, curtok: nat, i: nat, token: string)
    requires IsToken(src, curtok, i, token)
    ensures src[curtok..] == token + src[i..]
  {}

  lemma LongerToken(src: string, curtok: nat, i: nat, token: string)
    requires IsToken(src, curtok, i, token) && i < |src|
    ensures IsToken(src, curtok, i + 1, token + [src[i]])
  {}

  method ReadQuad(src: string, tmp: array<byte>, tp: nat, colonp: int) returns (p: Progress)
    requires tmp.Length == 16 && tp + 4 <= 16 && -1 <= colonp <= tp && forall k :: tp <= k < 16 ==> tmp[k] == 0
    modifies tmp
    ensures Matches(QuadScan(src, old(tmp[..tp]), colonp), p, tmp[..], "")
  {
    hide Octets, PrefixLength;
    var quad := GetV4(src);
    QuadMeans(src, tmp[..tp], colonp, quad);
    if quad.None? { return GiveUp; }
    PutBytes(tmp, tp, quad.value.0 + seq(4 - |quad.value.0|, _ => 0));
    p := Open(tp + 4, colonp, false, 0, if quad.value.1.Some? then quad.value.1.value else -1, true);
    assert tmp[..][..tp + 4] == tmp[..tp + 4];
  }

  method ReadPrefix(src: string, tmp: array<byte>, tp: nat, colonp: int, ghost token: string, sawXdigit: bool, val: nat)
    returns (p: Progress)
    requires tmp.Length == 16 && tp <= 16 && -1 <= colonp <= tp && forall k :: tp <= k < 16 ==> tmp[k] == 0
    requires AllHex(token) && sawXdigit == (token != "") && (sawXdigit ==> val == HexValue(token))
    ensures Matches(PrefixScan(src, tmp[..tp], colonp, token), p, tmp[..], token)
  {
    hide PrefixLength;
    var length := GetBits(src);
    if length.None? { return GiveUp; }
    p := Open(tp, colonp, sawXdigit, val, length.value, false);
    assert tmp[..][..tp] == tmp[..tp];
  }

  method ScanText(src: string, tmp: array<byte>) returns (p: Progress, ghost token: string)
    requires tmp.Length == 16 && forall k :: 0 <= k < 16 ==> tmp[k] == 0
    modifies tmp
    ensures Matches(Scanned(src, [], -1, ""), p, tmp[..], token)
  {
    hide Scanned, HexValue, QuadScan, PrefixScan, WordBytes, HexDigit, IsHex, AllHex;
    var i, tp, colonp, curtok := 0, 0, -1, 0;
    var sawXdigit, val, digits := false, 0, 0;
    token := "";
    EmptyHex();
    ghost var scan := Scanned(src, [], -1, "");
    assert tmp[..0] == [] && src[0..] == src;
    while i < |src|
      invariant curtok <= i <= |src| && 0 <= tp <= 16 && -1 <= colonp <= tp
      invariant AllHex(token) && |token| <= 4 && IsToken(src, curtok, i, token)
      invariant sawXdigit == (token != "") && digits == |token| && val == HexValue(token)
      invariant forall k :: tp <= k < 16 ==> tmp[k] == 0
      invariant scan == Scanned(src[i..], tmp[..tp], colonp, token)
    {
      var ch := src[i];
      ghost var rest := src[i..];
      i := i + 1;
      assert rest[1..] == src[i..];
      if IsHex(ch) {
        HexStep(token, ch);
        LongerToken(src, curtok, i - 1, token);
        ScanHex(rest, tmp[..tp], colonp, token);
        val := val * 16 + HexDigit(ch);
        digits := digits + 1;
        if digits > 4 { return GiveUp, token; }
        token := token + [ch];
        sawXdigit := true;
        continue;
      }
      if ch == ':' {
        ScanColon(rest, tmp[..tp], colonp, token);
        curtok := i;
        if !sawXdigit {
          if colonp >= 0 { return GiveUp, token; }
          colonp := tp;
          continue;
        } else if i == |src| {
          return GiveUp, token;
        }
        if tp + 2 > 16 { return TooLong, token; }
        PutWord(tmp, tp, val);
        tp := tp + 2;
        sawXdigit, digits, val, token := false, 0, 0, "";
        EmptyHex();
        continue;
      }
      ScanEnd(rest, tmp[..tp], colonp, token);
      if ch == '.' && tp + 4 <= 16 {
        FromToken(src, curtok, i - 1, token);
        p := ReadQuad(src[curtok..], tmp, tp, colonp);
        return p, "";
      }
      if ch == '/' {
        p := ReadPrefix(src[i..], tmp, tp, colonp, token, sawXdigit, val);
        return p, token;
      }
      return GiveUp, token;
    }
    assert src[i..] == "";
    ScanEnd("", tmp[..tp], colonp, token);
    return Open(tp, colonp, sawXdigit, val, -1, false), token;
  }

  method PutWord(tmp: array<byte>, tp: nat, val: nat)
    requires tmp.Length == 16 && tp + 2 <= 16
    modifies tmp
    ensures tmp[..tp + 2] == old(tmp[..tp]) + WordBytes(val)
    ensures forall k :: tp + 2 <= k < 16 ==> tmp[k] == old(tmp[k])
  {
    tmp[tp] := val / 256 % 256;
    tmp[tp + 1] := val % 256;
  }

  method PutBytes(tmp: array<byte>, tp: nat, bytes: seq<byte>)
    requires tmp.Length == 16 && tp + |bytes| <= 16
    modifies tmp
    ensures tmp[..tp + |bytes|] == old(tmp[..tp]) + bytes
    ensures forall k :: tp + |bytes| <= k < 16 ==> tmp[k] == old(tmp[k])
  {
    forall k | 0 <= k < |bytes| {
      tmp[tp + k] := bytes[k];
    }
  }

  method ShiftUp(tmp: array<byte>, colonp: nat, n: nat, endp: nat)
    requires colonp + n <= tmp.Length && n <= endp <= tmp.Length
    modifies tmp
    ensures tmp[..] == ShiftFrom(old(tmp[..]), colonp, n, endp, 1)
  {
    var i := 1;
    while i <= n
      invariant 1 <= i <= n + 1
      invariant ShiftFrom(tmp[..], colonp, n, endp, i) == ShiftFrom(old(tmp[..]), colonp, n, endp, 1)
    {
      ghost var before := tmp[..];
      tmp[endp - i] := tmp[colonp + n - i];
      tmp[colonp + n - i] := 0;
      assert tmp[..] == before[endp - i := before[colonp + n - i]][colonp + n - i := 0];
      i := i + 1;
    }
  }

  lemma EmptyHex()
    ensures AllHex("") && HexValue("") == 0
  {}

  lemma QuadMeans(s: string, out: seq<byte>, colon: int, quad: Option<(seq<byte>, Option<nat>)>)
    requires |out| + 4 <= 16 && -1 <= colon <= |out| && quad == Octets(s, [], 0, 0)
    ensures QuadScan(s, out, colon)
            == if quad.None? then Bad
               else Scan(out + (quad.value.0 + seq(4 - |quad.value.0|, _ => 0)), colon, "", quad.value.1, true)
  {
    if quad.Some? {
      assert out + quad.value.0 + Zeros(4 - |quad.value.0|) == out + (quad.value.0 + seq(4 - |quad.value.0|, _ => 0));
    }
  }

  method CloseGroup(tmp: array<byte>, tp: nat, colonp: int, ghost token: string, sawXdigit: bool, val: nat,
                    bits: int, ipv4: bool) returns (r: Outcome)
    requires tmp.Length == 16 && tp <= 16 && -1 <= colonp <= tp && -1 <= bits <= 128
    requires AllHex(token) && sawXdigit == (token != "") && (sawXdigit ==> val == HexValue(token))
    requires forall k :: tp <= k < 16 ==> tmp[k] == 0
    modifies tmp
    ensures r == Concluded(Scan(old(tmp[..tp]), colonp, token, if bits == -1 then None else Some(bits), ipv4))
  {
    hide Laid;
    var end := tp;
    if sawXdigit {
      if tp + 2 > 16 { return Failure; }
      PutWord(tmp, tp, val);
      end := tp + 2;
    }
    r := LayOut(tmp, end, colonp, if bits == -1 then 128 else bits, ipv4);
  }

  /** The end of the parser: the shift for "::", and the copy of the prefix. */
  method LayOut(tmp: array<byte>, tp: nat, colonp: int, bits: nat, ipv4: bool) returns (r: Outcome)
    requires tmp.Length == 16 && tp <= 16 && -1 <= colonp <= tp && bits <= 128
    requires forall k :: tp <= k < 16 ==> tmp[k] == 0
    modifies tmp
    ensures r == Laid(old(tmp[..tp]), colonp, bits, ipv4)
  {
    var words := (bits + 15) / 16;
    if words < 2 { words := 2; }
    if ipv4 { words := 8; }
    var endp := 2 * words;
    assert tmp[..] == tmp[..tp] + Zeros(16 - tp);
    if colonp != -1 {
      var n := tp - colonp;
      if tp == endp && n != 0 { return Failure; }
      if n > endp { return Undefined; }
      ShiftUp(tmp, colonp, n, endp);
      return Parsed(bits, tmp[..(bits + 7) / 8]);
    }
    if tp != endp { return Failure; }
    return Parsed(bits, tmp[..(bits + 7) / 8]);
  }
}
