/** Verification of PASETO v4.public tokens: splitting the token, the pre-authentication encoding
    (PAE), and what a successful verification means. */
module Paseto {
  import opened Bytes
  import Base64

  const HEADER_TEXT: string := "v4.public."
  const HEADER: seq<byte> := [118, 52, 46, 112, 117, 98, 108, 105, 99, 46]
  const SIGNATURE_BYTES: nat := 64
  const SIZE_LIMIT: nat := 0x1_0000_0000_0000_0000

  // ----- Little-endian lengths -----------------------------------------------------

  function Pow256(n: nat): (p: nat)
    ensures p > 0
  {
    if n == 0 then 1 else 256 * Pow256(n - 1)
  }

  /** The low `n` bytes of `v`, lowest first. */
  function LittleEndian(v: nat, n: nat): (s: seq<byte>)
    ensures |s| == n
  {
    if n == 0 then [] else [v % 256] + LittleEndian(v / 256, n - 1)
  }

  function FromLittleEndian(s: seq<byte>): nat {
    if s == [] then 0 else s[0] + 256 * FromLittleEndian(s[1..])
  }

  lemma {:induction false} LittleEndianRoundTrip(v: nat, n: nat)
    requires v < Pow256(n)
    ensures FromLittleEndian(LittleEndian(v, n)) == v
  {
    if n > 0 {
      LittleEndianRoundTrip(v / 256, n - 1);
      assert LittleEndian(v, n)[1..] == LittleEndian(v / 256, n - 1);
    }
  }

  function Le64(v: nat): (s: seq<byte>)
    ensures |s| == 8
  {
    LittleEndian(v, 8)
  }

  lemma Pow256Of8()
    ensures Pow256(8) == SIZE_LIMIT
  {
    assert Pow256(2) == 256 * Pow256(1) == 65536;
    assert Pow256(4) == 256 * (256 * Pow256(2));
    assert Pow256(6) == 256 * (256 * Pow256(4));
    assert Pow256(8) == 256 * (256 * Pow256(6));
  }

  /** The byte at place `i` counts 256 to the power of `i`: the lowest comes first. */
  lemma {:induction false} LowestFirst(v: nat, n: nat, i: nat)
    requires i < n
    ensures LittleEndian(v, n)[i] == v / Pow256(i) % 256
  {
    if i > 0 {
      LowestFirst(v / 256, n - 1, i - 1);
      DivTwice(v, Pow256(i - 1));
    }
  }

  lemma DivTwice(v: nat, d: nat)
    requires d > 0
    ensures v / 256 / d == v / (256 * d)
  {
    var q := v / 256 / d;
    var a, b := v / 256 - q * d, v % 256;
    assert v == 256 * (q * d + a) + b == q * (256 * d) + (256 * a + b);
    assert 0 <= 256 * a + b < 256 * d;
    QuotientIs(v, 256 * d, q, 256 * a + b);
  }

  lemma Times(a: nat, b: nat, d: nat)
    requires a <= b
    ensures a * d <= b * d
  {}

  lemma QuotientIs(v: nat, d: nat, q: nat, r: nat)
    requires r < d && v == q * d + r
    ensures v / d == q
  {
    var p := v / d;
    assert p * d <= v < (p + 1) * d;
    if p < q {
      Times(p + 1, q, d);
    } else if p > q {
      Times(q + 1, p, d);
    }
  }

  lemma Le64Injective(v: nat, w: nat)
    requires v < SIZE_LIMIT && w < SIZE_LIMIT && Le64(v) == Le64(w)
    ensures v == w
  {
    Pow256Of8();
    LittleEndianRoundTrip(v, 8);
    LittleEndianRoundTrip(w, 8);
  }

  method WriteLe64(value: nat, out: array<byte>, at: nat)
    requires at + 8 <= out.Length
    modifies out
    ensures out[..] == old(out[..at]) + Le64(value) + old(out[at + 8..])
  {
    var v := value;
    var i := 0;
    ghost var was := out[..];
    while i < 8
      invariant 0 <= i <= 8
      invariant out[..at] == was[..at] && out[at + 8..] == was[at + 8..]
      invariant out[at..at + i] + LittleEndian(v, 8 - i) == Le64(value)
    {
      out[at + i] := v % 256;
      assert out[at..at + i + 1] == out[at..at + i] + [v % 256];
      v := v / 256;
      i := i + 1;
    }
    assert out[..] == out[..at] + out[at..at + 8] + out[at + 8..];
  }

  // ----- Pre-authentication encoding -----------------------------------------------

  function Pieces(pieces: seq<seq<byte>>): seq<byte> {
    if pieces == [] then [] else Le64(|pieces[0]|) + pieces[0] + Pieces(pieces[1..])
  }

  /** PAE as the PASETO specification defines it: the number of pieces, then each with its length. */
  function Pae(pieces: seq<seq<byte>>): seq<byte> {
    Le64(|pieces|) + Pieces(pieces)
  }

  lemma {:induction false} PiecesInjective(p: seq<seq<byte>>, q: seq<seq<byte>>)
    requires |p| == |q| && Pieces(p) == Pieces(q)
    requires forall i :: 0 <= i < |p| ==> |p[i]| < SIZE_LIMIT && |q[i]| < SIZE_LIMIT
    ensures p == q
  {
    if p != [] {
      var x, y := Pieces(p), Pieces(q);
      assert x[..8] == Le64(|p[0]|) && y[..8] == Le64(|q[0]|);
      Le64Injective(|p[0]|, |q[0]|);
      var n := 8 + |p[0]|;
      assert x[8..n] == p[0] && y[8..n] == q[0];
      assert x[n..] == Pieces(p[1..]) && y[n..] == Pieces(q[1..]);
      PiecesInjective(p[1..], q[1..]);
      assert p == [p[0]] + p[1..] && q == [q[0]] + q[1..];
    }
  }

  /** No two lists of pieces have the same encoding. */
  lemma PaeInjective(p: seq<seq<byte>>, q: seq<seq<byte>>)
    requires |p| < SIZE_LIMIT && |q| < SIZE_LIMIT && Pae(p) == Pae(q)
    requires forall i :: 0 <= i < |p| ==> |p[i]| < SIZE_LIMIT
    requires forall i :: 0 <= i < |q| ==> |q[i]| < SIZE_LIMIT
    ensures p == q
  {
    assert Pae(p)[..8] == Le64(|p|) && Pae(q)[..8] == Le64(|q|);
    Le64Injective(|p|, |q|);
    assert Pae(p)[8..] == Pieces(p) && Pae(q)[8..] == Pieces(q);
    PiecesInjective(p, q);
  }

  /** What the signature of a v4.public token covers: header, message, footer, empty assertion. */
  function Signed(message: seq<byte>, footer: seq<byte>): seq<byte> {
    Pae([HEADER, message, footer, []])
  }

  /** A signed text stands for one message and one footer only. */
  lemma SignedInjective(m: seq<byte>, f: seq<byte>, m': seq<byte>, f': seq<byte>)
    requires |m| < SIZE_LIMIT && |f| < SIZE_LIMIT && |m'| < SIZE_LIMIT && |f'| < SIZE_LIMIT
    requires Signed(m, f) == Signed(m', f')
    ensures m == m' && f == f'
  {
    var p, q := [HEADER, m, f, []], [HEADER, m', f', []];
    PaeInjective(p, q);
    assert p[1] == q[1] && p[2] == q[2];
  }

  method Copy(source: seq<byte>, out: array<byte>, at: nat)
    requires at + |source| <= out.Length
    modifies out
    ensures out[..] == old(out[..at]) + source + old(out[at + |source|..])
  {
    forall i | 0 <= i < |source| {
      out[at + i] := source[i];
    }
  }

  /** The buffer the code fills piece by piece is the encoding, and exactly as long as was allocated. */
  method BuildPae(message: seq<byte>, footer: seq<byte>) returns (pae: array<byte>)
    ensures fresh(pae)
    ensures pae.Length == 5 * 8 + |HEADER| + |message| + |footer|
    ensures pae[..] == Signed(message, footer)
  {
    pae := new byte[5 * 8 + |HEADER| + |message| + |footer|];
    var p := 0;
    WriteLe64(4, pae, p); p := p + 8;
    ghost var done := Le64(4);
    assert pae[..p] == done;
    WriteLe64(|HEADER|, pae, p); p := p + 8;
    done := done + Le64(|HEADER|);
    assert pae[..p] == done;
    Copy(HEADER, pae, p); p := p + |HEADER|;
    done := done + HEADER;
    assert pae[..p] == done;
    WriteLe64(|message|, pae, p); p := p + 8;
    done := done + Le64(|message|);
    assert pae[..p] == done;
    Copy(message, pae, p); p := p + |message|;
    done := done + message;
    assert pae[..p] == done;
    WriteLe64(|footer|, pae, p); p := p + 8;
    done := done + Le64(|footer|);
    assert pae[..p] == done;
    if |footer| > 0 {
      Copy(footer, pae, p); p := p + |footer|;
    }
    done := done + footer;
    assert pae[..p] == done;
    WriteLe64(0, pae, p);
    done := done + Le64(0);
    assert pae[..] == done;
    SignedIs(message, footer);
  }

  lemma SignedIs(message: seq<byte>, footer: seq<byte>)
    ensures Signed(message, footer)
            == Le64(4) + Le64(|HEADER|) + HEADER + Le64(|message|) + message + Le64(|footer|) + footer + Le64(0)
  {
    hide Le64, Pieces;
    var p1, p2, p3: seq<seq<byte>> := [message, footer, []], [footer, []], [[]];
    FirstPiece([HEADER, message, footer, []], p1);
    FirstPiece(p1, p2);
    FirstPiece(p2, p3);
    FirstPiece(p3, []);
    NoPieces();
    assert Pieces(p3) == Le64(0);
    Flat(Le64(4), Le64(|HEADER|), HEADER, Le64(|message|), message, Pieces(p2));
    Flat(Le64(4) + Le64(|HEADER|) + HEADER, Le64(|message|), message, Le64(|footer|), footer, Le64(0));
  }

  lemma FirstPiece(pieces: seq<seq<byte>>, rest: seq<seq<byte>>)
    requires pieces != [] && pieces[1..] == rest
    ensures Pieces(pieces) == Le64(|pieces[0]|) + pieces[0] + Pieces(rest)
  {
    hide Le64;
  }

  lemma NoPieces()
    ensures Pieces([]) == []
  {}

  lemma Flat(a: seq<byte>, b: seq<byte>, c: seq<byte>, d: seq<byte>, e: seq<byte>, f: seq<byte>)
    ensures a + b + c + d + e + f == a + (b + c + (d + e + f))
  {}

  // ----- Tokens --------------------------------------------------------------------

  datatype Option<T> = None | Some(value: T)

  /** strchr: the first place of `c`, or the length when it does not occur. */
  function Find(s: string, c: char): (i: nat)
    ensures i <= |s| && (i < |s| ==> s[i] == c) && forall j :: 0 <= j < i ==> s[j] != c
  {
    if s == "" || s[0] == c then 0 else 1 + Find(s[1..], c)
  }

  predicate DotFree(s: string) {
    forall i :: 0 <= i < |s| ==> s[i] != '.'
  }

  lemma FindIs(s: string, c: char, i: nat)
    requires i <= |s| && (i < |s| ==> s[i] == c) && forall j :: 0 <= j < i ==> s[j] != c
    ensures Find(s, c) == i
  {}

  /** A token as it is written: payload text and perhaps a footer text. */
  function TokenText(payload: string, footer: Option<string>): string {
    HEADER_TEXT + payload + (if footer.Some? then "." + footer.value else "")
  }

  predicate Texts(payload: string, footer: Option<string>) {
    && payload != "" && DotFree(payload)
    && (footer.Some? ==> footer.value != "" && DotFree(footer.value))
  }

  datatype Parts = Malformed | Parts(payload: string, footer: Option<string>)

  function SplitToken(token: string): Parts {
    if !(HEADER_TEXT <= token) then Malformed else
    var rest := token[|HEADER_TEXT|..];
    var i := Find(rest, '.');
    if i < |rest| then
      var footer := rest[i + 1..];
      if footer == "" || Find(footer, '.') < |footer| || i == 0 then Malformed
      else Parts(rest[..i], Some(footer))
    else if rest == "" then Malformed
    else Parts(rest, None)
  }

  lemma SplitOfText(payload: string, footer: Option<string>)
    requires Texts(payload, footer)
    ensures SplitToken(TokenText(payload, footer)) == Parts(payload, footer)
  {
    var token := TokenText(payload, footer);
    var rest := token[|HEADER_TEXT|..];
    if footer.Some? {
      assert rest == payload + ("." + footer.value);
      assert rest[|payload|] == '.' && rest[..|payload|] == payload && rest[|payload| + 1..] == footer.value;
      FindIs(rest, '.', |payload|);
      FindIs(footer.value, '.', |footer.value|);
    } else {
      assert rest == payload;
      FindIs(rest, '.', |payload|);
    }
  }

  lemma TextOfSplit(token: string)
    requires SplitToken(token).Parts?
    ensures var parts := SplitToken(token);
            Texts(parts.payload, parts.footer) && token == TokenText(parts.payload, parts.footer)
  {
    var parts := SplitToken(token);
    var rest := token[|HEADER_TEXT|..];
    assert token == HEADER_TEXT + rest;
    var i := Find(rest, '.');
    if i < |rest| {
      assert rest == rest[..i] + ("." + rest[i + 1..]);
      assert HEADER_TEXT + (rest[..i] + ("." + rest[i + 1..])) == HEADER_TEXT + rest[..i] + ("." + rest[i + 1..]);
    } else {
      assert HEADER_TEXT + rest + "" == HEADER_TEXT + rest;
    }
  }

  /** Splitting inverts writing: it accepts the well-formed token texts and no others. */
  lemma SplitInvertsText(token: string, payload: string, footer: Option<string>)
    ensures SplitToken(token) == Parts(payload, footer) <==> Texts(payload, footer) && token == TokenText(payload, footer)
  {
    if SplitToken(token) == Parts(payload, footer) {
      TextOfSplit(token);
    }
    if Texts(payload, footer) {
      SplitOfText(payload, footer);
    }
  }

  /** A signature check under one public key: signed bytes, signature. */
  type Verifier = (seq<byte>, seq<byte>) -> bool

  function Accepts(payload: seq<byte>, footer: seq<byte>, valid: Verifier): Option<seq<byte>> {
    if |payload| < SIGNATURE_BYTES then None
    else
      var n := |payload| - SIGNATURE_BYTES;
      if valid(Signed(payload[..n], footer), payload[n..]) then Some(payload[..n]) else None
  }

  function Verified(token: string, valid: Verifier): Option<seq<byte>> {
    match SplitToken(token)
    case Malformed => None
    case Parts(payload, footer) =>
      match Base64.Decode(payload)
      case Success(bytes) =>
        if footer.None? then Accepts(bytes, [], valid)
        else (match Base64.Decode(footer.value)
              case Success(footerBytes) => Accepts(bytes, footerBytes, valid)
              case _ => None)
      case _ => None
  }

  /** The first part of the code: where payload and footer lie in the token. */
  method Split(token: string) returns (parts: Parts)
    ensures parts == SplitToken(token)
  {
    if !(HEADER_TEXT <= token) {
      return Malformed;
    }
    var payloadText := token[|HEADER_TEXT|..];
    var separator := Find(payloadText, '.');
    var footerText := None;
    if separator < |payloadText| {
      footerText := Some(payloadText[separator + 1..]);
      payloadText := payloadText[..separator];
      if footerText.value == "" || Find(footerText.value, '.') < |footerText.value| {
        return Malformed;
      }
    }
    if payloadText == "" {
      return Malformed;
    }
    return Parts(payloadText, footerText);
  }

  method Verify(token: string, valid: Verifier) returns (message: Option<seq<byte>>)
    ensures message == Verified(token, valid)
  {
    hide SplitToken;
    hide Base64.Decode;
    hide Signed;
    var parts := Split(token);
    if parts.Malformed? {
      return None;
    }
    var decoded := Base64.Unbase64(parts.payload);
    if !decoded.Success? {
      return None;
    }
    if |decoded.bytes| < SIGNATURE_BYTES {
      return None;
    }
    var footer: seq<byte> := [];
    if parts.footer.Some? {
      var decodedFooter := Base64.Unbase64(parts.footer.value);
      if !decodedFooter.Success? {
        return None;
      }
      footer := decodedFooter.bytes;
    }
    var messageLen := |decoded.bytes| - SIGNATURE_BYTES;
    var pae := BuildPae(decoded.bytes[..messageLen], footer);
    if valid(pae[..], decoded.bytes[messageLen..]) {
      return Some(decoded.bytes[..messageLen]);
    }
    return None;
  }

  /** The token is the text of `payload` and `footer`; the payload decodes to the message and a
      signature, the footer (if any) to `f`, and the signature is valid for message and footer. */
  ghost predicate Carries(token: string, valid: Verifier, m: seq<byte>,
                          payload: string, footer: Option<string>, signature: seq<byte>, f: seq<byte>) {
    && Texts(payload, footer) && token == TokenText(payload, footer)
    && |signature| == SIGNATURE_BYTES && Base64.Decode(payload) == Base64.Success(m + signature)
    && (if footer.Some? then Base64.Decode(footer.value) == Base64.Success(f) else f == [])
    && valid(Signed(m, f), signature)
  }

  lemma CarriedIsVerified(token: string, valid: Verifier, m: seq<byte>,
                          payload: string, footer: Option<string>, signature: seq<byte>, f: seq<byte>)
    requires Carries(token, valid, m, payload, footer, signature, f)
    ensures Verified(token, valid) == Some(m)
  {
    hide SplitToken;
    hide Base64.Decode;
    hide Signed;
    SplitInvertsText(token, payload, footer);
    assert (m + signature)[..|m|] == m && (m + signature)[|m|..] == signature;
  }

  lemma VerifiedIsCarried(token: string, valid: Verifier)
    returns (payload: string, footer: Option<string>, signature: seq<byte>, f: seq<byte>)
    requires Verified(token, valid).Some?
    ensures Carries(token, valid, Verified(token, valid).value, payload, footer, signature, f)
    ensures SplitToken(token) == Parts(payload, footer)
  {
    hide SplitToken;
    hide Base64.Decode;
    hide Signed;
    var m := Verified(token, valid).value;
    var parts := SplitToken(token);
    payload, footer := parts.payload, parts.footer;
    SplitInvertsText(token, payload, footer);
    var bytes := Base64.Decode(payload).bytes;
    signature := bytes[|m|..];
    f := if footer.Some? then Base64.Decode(footer.value).bytes else [];
    assert bytes == m + signature;
  }

  /** Verification returns a message exactly for the tokens whose payload decodes to that message
      followed by a signature that is valid over PAE(header, message, footer, empty). */
  lemma VerifiedIff(token: string, valid: Verifier, m: seq<byte>)
    ensures Verified(token, valid) == Some(m) <==>
            exists payload, footer, signature, f :: Carries(token, valid, m, payload, footer, signature, f)
  {
    if Verified(token, valid) == Some(m) {
      var payload, footer, signature, f := VerifiedIsCarried(token, valid);
    }
    if payload, footer, signature, f :| Carries(token, valid, m, payload, footer, signature, f) {
      CarriedIsVerified(token, valid, m, payload, footer, signature, f);
    }
  }

  /** The token an issuer writes: unpadded Base64URL of message and signature, and of the footer. */
  function Issue(m: seq<byte>, footer: seq<byte>, signature: seq<byte>): string {
    TokenText(Base64.Spelling(m + signature, true, false),
              if footer == [] then None else Some(Base64.Spelling(footer, true, false)))
  }

  lemma SpellingIsText(b: seq<byte>)
    requires b != []
    ensures var s := Base64.Spelling(b, true, false); s != "" && DotFree(s)
  {
    var s := Base64.Spelling(b, true, false);
    Base64.RoundTrip(b, true, false);
    Base64.DecodedLength(s);
    Base64.SpellingNormalizes(b, true, false);
    Base64.EncodedSymbols(b);
    assert forall i :: 0 <= i < |s| ==> Base64.EncodeBlock(b)[i] == Base64.Standard(s[i]);
    assert Base64.Code('.') < 0;
  }

  /** An issued token verifies, and to the message that was put in, exactly when its signature does. */
  lemma IssuedTokenVerifies(m: seq<byte>, footer: seq<byte>, signature: seq<byte>, valid: Verifier)
    requires |signature| == SIGNATURE_BYTES
    ensures Verified(Issue(m, footer, signature), valid)
            == if valid(Signed(m, footer), signature) then Some(m) else None
  {
    hide SplitToken;
    hide Base64.Decode;
    hide Signed;
    var payload := Base64.Spelling(m + signature, true, false);
    SpellingIsText(m + signature);
    Base64.RoundTrip(m + signature, true, false);
    var footerText := if footer == [] then None else Some(Base64.Spelling(footer, true, false));
    if footer != [] {
      SpellingIsText(footer);
      Base64.RoundTrip(footer, true, false);
    }
    SplitInvertsText(Issue(m, footer, signature), payload, footerText);
    assert (m + signature)[..|m|] == m && (m + signature)[|m|..] == signature;
  }

  /** When the key holder has only ever signed v4.public texts, a verified message is one that was
      signed, with the footer it was signed with. */
  lemma OnlySignedMessagesVerify(token: string, valid: Verifier, signed: set<(seq<byte>, seq<byte>)>)
    requires |token| < 0x1_0000_0000
    requires forall p :: p in signed ==> |p.0| < SIZE_LIMIT && |p.1| < SIZE_LIMIT
    requires forall x, s :: valid(x, s) ==> exists p :: p in signed && x == Signed(p.0, p.1)
    ensures Verified(token, valid).Some? ==> exists f :: (Verified(token, valid).value, f) in signed
  {
    if Verified(token, valid).Some? {
      hide Signed;
      var m := Verified(token, valid).value;
      var payload, footer, signature, f := VerifiedIsCarried(token, valid);
      var p :| p in signed && Signed(m, f) == Signed(p.0, p.1);
      CarriedLength(token, valid, m, payload, footer, signature, f);
      SignedInjective(m, f, p.0, p.1);
      assert p == (m, f);
    }
  }

  lemma CarriedLength(token: string, valid: Verifier, m: seq<byte>,
                      payload: string, footer: Option<string>, signature: seq<byte>, f: seq<byte>)
    requires Carries(token, valid, m, payload, footer, signature, f) && |token| < 0x1_0000_0000
    ensures |m| < SIZE_LIMIT && |f| < SIZE_LIMIT
  {
    hide Signed;
    Base64.DecodedLength(payload);
    assert |m + signature| == |m| + |signature|;
    if footer.Some? { Base64.DecodedLength(footer.value); }
  }
}
