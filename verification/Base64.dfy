/** Base64 and Base64URL: the block codec of RFC 4648 that OpenSSL provides, and the gateway's
    normalisation that lets one decoder read all four spellings (standard or URL alphabet, padded
    or not). */
module Base64 {
  import opened Bytes

  const PAD: char := '='

  // ----- The block codec (RFC 4648, section 4) -------------------------------------

  /** The alphabet: A-Z, a-z, 0-9, '+', '/'. */
  function Symbol(v: nat): (c: char)
    requires v < 64
    ensures c != PAD && c != '-' && c != '_'
  {
    if v < 26 then ('A' as int + v) as char
    else if v < 52 then ('a' as int + v - 26) as char
    else if v < 62 then ('0' as int + v - 52) as char
    else if v == 62 then '+'
    else '/'
  }

  /** The value of a character in a block; the pad counts as zero, a foreign character as -1. */
  function Code(c: char): (v: int)
    ensures -1 <= v < 64
  {
    if 'A' <= c <= 'Z' then c as int - 'A' as int
    else if 'a' <= c <= 'z' then c as int - 'a' as int + 26
    else if '0' <= c <= '9' then c as int - '0' as int + 52
    else if c == '+' then 62
    else if c == '/' then 63
    else if c == PAD then 0
    else -1
  }

  /** Table 1 of RFC 4648: the three runs and the last two symbols. Nothing but these and the pad has a value. */
  lemma SymbolsAreTheAlphabet(v: nat, c: char)
    requires v < 64
    ensures Symbol(0) == 'A' && Symbol(26) == 'a' && Symbol(52) == '0' && Symbol(62) == '+' && Symbol(63) == '/'
    ensures v < 63 && v + 1 !in {26, 52, 62, 63} ==> Symbol(v + 1) as int == Symbol(v) as int + 1
    ensures c != PAD ==> (Code(c) == v <==> c == Symbol(v))
    ensures Code(c) >= 0 <==> c == PAD || exists w: nat :: w < 64 && c == Symbol(w)
  {
    if Code(c) >= 0 && c != PAD {
      assert c == Symbol(Code(c));
    }
  }

  lemma CodeOfSymbol(v: nat)
    requires v < 64
    ensures Code(Symbol(v)) == v
  {}

  /** Three bytes as four characters. */
  function EncodeTriple(a: byte, b: byte, c: byte): (s: string)
    ensures |s| == 4 && forall i :: 0 <= i < 4 ==> s[i] != PAD && s[i] != '-' && s[i] != '_'
  {
    [Symbol(a / 4), Symbol(a % 4 * 16 + b / 16), Symbol(b % 16 * 4 + c / 64), Symbol(c % 64)]
  }

  /** Four characters stand for the same 24 bits, highest first. */
  lemma TripleIsItsBits(a: byte, b: byte, c: byte)
    ensures var s := EncodeTriple(a, b, c);
            Code(s[0]) * 0x4_0000 + Code(s[1]) * 0x1000 + Code(s[2]) * 0x40 + Code(s[3]) == a as int * 0x1_0000 + b as int * 0x100 + c
  {
    hide Code, Symbol;
    CodeOfSymbol(a / 4);
    CodeOfSymbol(a % 4 * 16 + b / 16);
    CodeOfSymbol(b % 16 * 4 + c / 64);
    CodeOfSymbol(c % 64);
  }

  /** Four characters as three bytes. */
  function DecodeQuad(s: string): (r: Decoded)
    requires |s| == 4
    ensures r.Success? ==> |r.bytes| == 3
    ensures !r.Fatal?
  {
    var v0, v1, v2, v3 := Code(s[0]), Code(s[1]), Code(s[2]), Code(s[3]);
    if v0 < 0 || v1 < 0 || v2 < 0 || v3 < 0 then Failure
    else Success([v0 * 4 + v1 / 16, v1 % 16 * 16 + v2 / 4, v2 % 4 * 64 + v3])
  }

  /** EVP_EncodeBlock: groups of three bytes become four characters, a short last group is padded. */
  function EncodeBlock(b: seq<byte>): (s: string)
  {
    if |b| == 0 then ""
    else if |b| == 1 then EncodeTriple(b[0], 0, 0)[..2] + [PAD, PAD]
    else if |b| == 2 then EncodeTriple(b[0], b[1], 0)[..3] + [PAD]
    else EncodeTriple(b[0], b[1], b[2]) + EncodeBlock(b[3..])
  }

  datatype Decoded = Failure | Success(bytes: seq<byte>) | Fatal

  /** EVP_DecodeBlock: four characters become three bytes, the pad read as zero bits. */
  function DecodeBlock(s: string): (r: Decoded)
    ensures r.Success? ==> |r.bytes| == 3 * (|s| / 4)
    ensures !r.Fatal?
  {
    if s == "" then Success([])
    else if |s| < 4 then Failure
    else match (DecodeQuad(s[..4]), DecodeBlock(s[4..]))
         case (Success(group), Success(rest)) => Success(group + rest)
         case _ => Failure
  }

  /** How many pad characters the encoding of `n` bytes ends in. */
  function PadOf(n: nat): (p: nat)
    ensures p <= 2
  {
    if n % 3 == 0 then 0 else 3 - n % 3
  }

  function Zeros(n: nat): (s: seq<byte>)
    ensures |s| == n
  {
    seq(n, _ => 0)
  }

  lemma DecodeTriple(a: byte, b: byte, c: byte)
    ensures DecodeQuad(EncodeTriple(a, b, c)) == Success([a, b, c])
  {
    var v0, v1, v2, v3 := a / 4, a % 4 * 16 + b / 16, b % 16 * 4 + c / 64, c % 64;
    CodeOfSymbol(v0); CodeOfSymbol(v1); CodeOfSymbol(v2); CodeOfSymbol(v3);
    assert v1 / 16 == a % 4 && v1 % 16 == b / 16;
    assert v2 / 4 == b % 16 && v2 % 4 == c / 64;
  }

  lemma DecodePadded(a: byte, b: byte, pads: nat)
    requires 1 <= pads <= 2 && (pads == 2 ==> b == 0)
    ensures DecodeQuad(EncodeTriple(a, b, 0)[..4 - pads] + Pads(pads)) == Success([a, b, 0])
  {
    DecodeTriple(a, b, 0);
    CodeOfSymbol(0);
  }

  lemma DecodeStep(quad: string, rest: string)
    requires |quad| == 4 && DecodeQuad(quad).Success? && DecodeBlock(rest).Success?
    ensures DecodeBlock(quad + rest) == Success(DecodeQuad(quad).bytes + DecodeBlock(rest).bytes)
  {
    assert (quad + rest)[..4] == quad && (quad + rest)[4..] == rest;
  }

  lemma DecodeLast(quad: string, group: seq<byte>)
    requires |quad| == 4 && DecodeQuad(quad) == Success(group)
    ensures DecodeBlock(quad) == Success(group)
  {
    hide DecodeQuad;
    assert quad[..4] == quad && quad[4..] == "";
    assert group + [] == group;
  }

  lemma DecodeOneByte(a: byte)
    ensures DecodeBlock(EncodeBlock([a])) == Success([a, 0, 0])
  {
    hide EncodeTriple;
    DecodePadded(a, 0, 2);
    assert Pads(2) == [PAD, PAD];
    DecodeLast(EncodeBlock([a]), [a, 0, 0]);
  }

  lemma DecodeTwoBytes(a: byte, b: byte)
    ensures DecodeBlock(EncodeBlock([a, b])) == Success([a, b, 0])
  {
    hide EncodeTriple;
    DecodePadded(a, b, 1);
    assert Pads(1) == [PAD];
    DecodeLast(EncodeBlock([a, b]), [a, b, 0]);
  }

  /** Decoding a block gives the bytes back, followed by one zero for every pad character. */
  lemma {:induction false} DecodeOfEncode(b: seq<byte>)
    ensures DecodeBlock(EncodeBlock(b)) == Success(b + Zeros(PadOf(|b|)))
  {
    hide EncodeTriple;
    hide DecodeQuad;
    if |b| == 0 {
      assert b + Zeros(0) == [];
    } else if |b| == 1 {
      DecodeOneByte(b[0]);
      assert b == [b[0]] && b + Zeros(2) == [b[0], 0, 0];
    } else if |b| == 2 {
      DecodeTwoBytes(b[0], b[1]);
      assert b == [b[0], b[1]] && b + Zeros(1) == [b[0], b[1], 0];
    } else {
      var group, rest := [b[0], b[1], b[2]], b[3..];
      DecodeTriple(b[0], b[1], b[2]);
      DecodeOfEncode(rest);
      DecodeStep(EncodeTriple(b[0], b[1], b[2]), EncodeBlock(rest));
      TailPad(|b|);
      assert group + (rest + Zeros(PadOf(|b|))) == b + Zeros(PadOf(|b|));
    }
  }

  lemma TailPad(n: nat)
    requires n >= 3
    ensures PadOf(n - 3) == PadOf(n)
  {}

  /** Pads stand in the last `pads` places and nowhere else; URL characters do not occur. */
  ghost predicate Shaped(s: string, pads: nat) {
    && |s| % 4 == 0 && pads <= |s|
    && forall i :: 0 <= i < |s| ==> s[i] != '-' && s[i] != '_' && (s[i] == PAD <==> i >= |s| - pads)
  }

  lemma {:induction false} EncodedShape(b: seq<byte>)
    ensures Shaped(EncodeBlock(b), PadOf(|b|))
    ensures b != [] ==> EncodeBlock(b) != ""
  {
    if |b| >= 3 {
      EncodedShape(b[3..]);
      TailPad(|b|);
      ShapedAppend(EncodeTriple(b[0], b[1], b[2]), EncodeBlock(b[3..]), PadOf(|b|));
    }
  }

  /** Every character of an encoding has a value. */
  lemma {:induction false} EncodedSymbols(b: seq<byte>)
    ensures forall i :: 0 <= i < |EncodeBlock(b)| ==> Code(EncodeBlock(b)[i]) >= 0
  {
    if 1 <= |b| {
      var y, z: byte := if |b| >= 2 then b[1] else 0, if |b| >= 3 then b[2] else 0;
      TripleSymbols(b[0], y, z);
      if |b| >= 3 {
        EncodedSymbols(b[3..]);
      }
    }
  }

  lemma TripleSymbols(a: byte, b: byte, c: byte)
    ensures forall i :: 0 <= i < 4 ==> Code(EncodeTriple(a, b, c)[i]) >= 0
  {
    CodeOfSymbol(a / 4);
    CodeOfSymbol(a % 4 * 16 + b / 16);
    CodeOfSymbol(b % 16 * 4 + c / 64);
    CodeOfSymbol(c % 64);
  }

  lemma ShapedAppend(quad: string, rest: string, pads: nat)
    requires |quad| == 4 && Shaped(quad, 0) && Shaped(rest, pads)
    ensures Shaped(quad + rest, pads)
  {
    var s := quad + rest;
    assert forall i :: 0 <= i < |s| ==> s[i] == if i < 4 then quad[i] else rest[i - 4];
  }

  // ----- Normalisation -------------------------------------------------------------

  function Standard(c: char): char {
    if c == '-' then '+' else if c == '_' then '/' else c
  }

  function StandardText(s: string): (r: string)
    ensures |r| == |s| && forall i :: 0 <= i < |r| ==> r[i] == Standard(s[i])
  {
    seq(|s|, i requires 0 <= i < |s| => Standard(s[i]))
  }

  function Pads(n: nat): (s: string)
    ensures |s| == n && forall i :: 0 <= i < n ==> s[i] == PAD
  {
    seq(n, _ => PAD)
  }

  /** The texts the normalisation lets through: no length leaves remainder 1, a pad stands at most in
      the last two places, and a full-length text with a pad in the place before last has two. */
  predicate Normalizable(s: string) {
    && |s| % 4 != 1
    && (forall i :: 0 <= i < |s| - 2 ==> s[i] != PAD)
    && (|s| % 4 == 0 && |s| >= 2 && s[|s| - 2] == PAD ==> s[|s| - 1] == PAD)
  }

  function Normalized(s: string): (r: string)
    requires Normalizable(s)
    ensures |r| % 4 == 0
  {
    StandardText(s) + Pads((4 - |s| % 4) % 4)
  }

  method Normalize(input: string) returns (ok: bool, output: string)
    ensures ok <==> Normalizable(input)
    ensures ok ==> output == Normalized(input)
  {
    var inputLen := |input|;
    var padding;
    output := "";
    match inputLen % 4 {
      case 0 => padding := 0;
      case 2 => padding := 2;
      case 3 => padding := 1;
      case _ => return false, "";
    }
    var bound := if inputLen > 2 then inputLen - 2 else 0;
    var i := 0;
    while i < bound
      invariant 0 <= i <= bound
      invariant forall j :: 0 <= j < i ==> input[j] != PAD
    {
      if input[i] == PAD {
        return false, "";
      }
      i := i + 1;
    }
    if padding == 0 && inputLen >= 2 && input[inputLen - 2] == PAD && input[inputLen - 1] != PAD {
      return false, "";
    }
    var normalized := new char[inputLen + padding](_ => PAD);
    i := 0;
    while i < inputLen
      invariant 0 <= i <= inputLen
      invariant forall j :: 0 <= j < i ==> normalized[j] == Standard(input[j])
      invariant forall j :: inputLen <= j < normalized.Length ==> normalized[j] == PAD
    {
      var c := input[i];
      if c == '-' {
        c := '+';
      } else if c == '_' {
        c := '/';
      }
      normalized[i] := c;
      i := i + 1;
    }
    assert normalized[..] == Normalized(input);
    return true, normalized[..];
  }

  // ----- Decoding ------------------------------------------------------------------

  function TrailingPads(s: string): nat {
    (if |s| >= 1 && s[|s| - 1] == PAD then 1 else 0) + (if |s| >= 2 && s[|s| - 2] == PAD then 1 else 0)
  }

  /** Decoding of any spelling. The empty text reaches an allocation of size zero, which is fatal. */
  function Decode(s: string): (r: Decoded)
  {
    if !Normalizable(s) then Failure
    else if s == "" then Fatal
    else
      var t := Normalized(s);
      match DecodeBlock(t)
      case Success(bytes) => Success(bytes[..|bytes| - TrailingPads(t)])
      case _ => Failure
  }

  method Unbase64(input: string) returns (r: Decoded)
    ensures r == Decode(input)
  {
    var ok, normalized := Normalize(input);
    if !ok {
      return Failure;
    }
    var totalPadding := 0;
    if |normalized| >= 1 && normalized[|normalized| - 1] == PAD {
      totalPadding := totalPadding + 1;
    }
    if |normalized| >= 2 && normalized[|normalized| - 2] == PAD {
      totalPadding := totalPadding + 1;
    }
    var outputSize := 3 * (|normalized| / 4);
    if outputSize == 0 {
      return Fatal;
    }
    r := DecodeBlock(normalized);
    if r.Success? {
      r := Success(r.bytes[..|r.bytes| - totalPadding]);
    }
  }

  /** One of the four spellings of an encoding. */
  function Spelling(b: seq<byte>, url: bool, padded: bool): string {
    var s := EncodeBlock(b);
    EncodedShape(b);
    var t := if padded then s else s[..|s| - PadOf(|b|)];
    if url then UrlText(t) else t
  }

  function Url(c: char): char {
    if c == '+' then '-' else if c == '/' then '_' else c
  }

  function UrlText(s: string): (r: string)
    ensures |r| == |s| && forall i :: 0 <= i < |r| ==> r[i] == Url(s[i])
  {
    seq(|s|, i requires 0 <= i < |s| => Url(s[i]))
  }

  lemma ShapedNormalizes(s: string, pads: nat, url: bool, padded: bool)
    requires Shaped(s, pads) && pads <= 2
    ensures var t := if padded then s else s[..|s| - pads];
            var u := if url then UrlText(t) else t;
            Normalizable(u) && Normalized(u) == s
  {
    var missing := if padded then 0 else pads;
    var t := s[..|s| - missing];
    assert padded ==> t == s;
    var u := if url then UrlText(t) else t;
    UrlIsStandard(t);
    LengthRest(|s|, |u|, missing);
    assert forall i :: 0 <= i < |u| ==> (u[i] == PAD <==> i >= |s| - pads);
    assert Normalized(u) == t + Pads(missing);
    assert t + Pads(missing) == s;
  }

  lemma UrlIsStandard(t: string)
    requires forall i :: 0 <= i < |t| ==> t[i] != '-' && t[i] != '_'
    ensures StandardText(t) == t && StandardText(UrlText(t)) == t
    ensures forall i :: 0 <= i < |t| ==> (UrlText(t)[i] == PAD <==> t[i] == PAD)
  {}

  lemma LengthRest(n: nat, m: nat, missing: nat)
    requires n % 4 == 0 && m + missing == n && missing <= 2
    ensures m % 4 != 1 && (4 - m % 4) % 4 == missing
  {}

  lemma SpellingNormalizes(b: seq<byte>, url: bool, padded: bool)
    ensures Normalizable(Spelling(b, url, padded)) && Normalized(Spelling(b, url, padded)) == EncodeBlock(b)
  {
    EncodedShape(b);
    ShapedNormalizes(EncodeBlock(b), PadOf(|b|), url, padded);
  }

  /** Every non-empty byte string comes back from each of its four spellings. */
  lemma RoundTrip(b: seq<byte>, url: bool, padded: bool)
    requires b != []
    ensures Decode(Spelling(b, url, padded)) == Success(b)
  {
    SpellingNormalizes(b, url, padded);
    EncodedShape(b);
    DecodeOfEncode(b);
    assert TrailingPads(EncodeBlock(b)) == PadOf(|b|);
    assert (b + Zeros(PadOf(|b|)))[..|b|] == b;
  }

  /** A decoded text carries exactly as many bytes as its unpadded length encodes, so a failure and a
      short answer cannot be confused; the empty text is the only fatal one. */
  lemma DecodedLength(s: string)
    ensures Decode(s).Fatal? <==> s == ""
    ensures Decode(s).Success? ==> |Decode(s).bytes| == 3 * (|Normalized(s)| / 4) - TrailingPads(Normalized(s))
    ensures Decode(s).Success? ==> 0 < |Decode(s).bytes| <= |s| + 2
  {
    if s != "" && Normalizable(s) {
      assert |Normalized(s)| >= 4;
    }
  }

  /** No two byte strings share a spelling. */
  lemma SpellingsDiffer(a: seq<byte>, b: seq<byte>, url: bool, padded: bool)
    requires a != [] && b != [] && Spelling(a, url, padded) == Spelling(b, url, padded)
    ensures a == b
  {
    RoundTrip(a, url, padded);
    RoundTrip(b, url, padded);
  }
}
