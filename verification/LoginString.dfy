/** The login string between gateway and proxy: printed by the gateway, parsed by the proxy into
    its session. */
module LoginString {
  import opened Text

  const DEFAULT_PORT: int := 22
  const DEFAULT_IDLE: nat := 1800
  const GATEWAY_IDLE: nat := 4 * 60 * 60
  const SCANNER_IDLE: nat := 2
  const BASTION_IP: string := "127.0.0.1"
  const BASTION_PORT: nat := 10022
  const BASTION: string := "bastion"

  /** What the host key scanner sends in place of a unique id. */
  function ScannerName(): string {
    "susshi-hostkey-scanner"
  }

  datatype Option<T> = None | Some(value: T)

  datatype Mode = Proxy | ChefRemote | Bastion

  datatype Code = Ok | IllegalChars | UsernameInvalid | ResolveFailed | PortInvalid | UnknownError

  /** What name resolution answers: a code and the addresses it stored. */
  datatype Answer = Answer(code: Code, ips: seq<string>)

  // ----- Character classes and numbers ----------------------------------------------

  predicate IsLetter(c: char) {
    'a' <= c <= 'z' || 'A' <= c <= 'Z'
  }

  predicate LoginChar(c: char) {
    IsLetter(c) || IsDigit(c) || c in {'@', '.', '[', ']', ':', '\\', '/', '_', '#', '-'}
  }

  predicate UniqidChar(c: char) {
    'a' <= c <= 'z' || IsDigit(c) || c in {'.', '_', '-'}
  }

  predicate HostChar(c: char) {
    IsLetter(c) || IsDigit(c) || c in {'.', '[', ']', ':', '-'}
  }

  predicate All(s: string, class_: char -> bool) {
    forall i :: 0 <= i < |s| ==> class_(s[i])
  }

  /** A match of ^[class]+$ in PCRE2, where the dollar also stands before one closing newline. */
  predicate Matches(s: string, class_: char -> bool) {
    var t := if s != "" && s[|s| - 1] == '\n' then s[..|s| - 1] else s;
    t != "" && All(t, class_)
  }

  const LONG_MAX: int := 0x7FFF_FFFF_FFFF_FFFF

  /** atol(3): leading space, a sign, digits; out of range sticks at the limit. */
  function Atol(s: string): int {
    if s != "" && IsSpace(s[0]) then Atol(s[1..])
    else if s != "" && s[0] == '-' then
      var v := -(Value(s[1..][..DigitRun(s[1..])]) as int);
      if v < -LONG_MAX - 1 then -LONG_MAX - 1 else v
    else
      var t := if s != "" && s[0] == '+' then s[1..] else s;
      var v := Value(t[..DigitRun(t)]);
      if v > LONG_MAX then LONG_MAX else v
  }

  /** A long cut down to 32 bits, unsigned and signed. */
  function AsUint32(x: int): nat {
    x % 0x1_0000_0000
  }

  function AsInt32(x: int): int {
    var u := x % 0x1_0000_0000;
    if u < 0x8000_0000 then u else u - 0x1_0000_0000
  }

  function Atoi(s: string): int {
    AsInt32(Atol(s))
  }

  lemma AtolOfDecimal(n: nat)
    requires n <= LONG_MAX
    ensures Atol(Decimal(n)) == n
  {
    ValueOfDecimal(n);
    DigitRunOf(Decimal(n), "");
    var s := Decimal(n);
    assert s + "" == s && s[..|s|] == s;
    assert IsDigit(s[0]);
  }

  function LowerChar(c: char): char {
    if 'A' <= c <= 'Z' then (c as int + 32) as char else c
  }

  function Lower(s: string): (r: string)
    ensures |r| == |s| && forall i :: 0 <= i < |s| ==> r[i] == LowerChar(s[i])
  {
    if s == "" then "" else [LowerChar(s[0])] + Lower(s[1..])
  }

  // ----- The parser ----------------------------------------------------------------

  /** The fields of the proxy session that the parser fills. */
  datatype Session = Session(login: Option<string>, mode: Mode, uniqid: string, host: string, port: int,
                             idle: nat, ips: seq<string>)

  /** First stage: the three parts, the mode and the idle time. */
  function Identify(user: string, s0: Session): (Code, Session) {
    var s := s0.(login := Some(user));
    var parts := Split(user, {'@', '/'});
    if !Matches(user, LoginChar) then (IllegalChars, s)
    else if |parts| != 3 then (UsernameInvalid, s)
    else
      var s1 := if parts[0] == ScannerName() then s.(uniqid := "unset", mode := ChefRemote)
                else s.(uniqid := parts[0], mode := Proxy);
      if parts[0] != ScannerName() && !Matches(parts[0], UniqidChar) then (IllegalChars, s1)
      else
        var idle := AsUint32(Atol(parts[2]));
        var s2 := s1.(host := parts[1],
                      mode := if BASTION <= parts[1] then Bastion else s1.mode,
                      idle := if idle == 0 then DEFAULT_IDLE else idle);
        (if Matches(parts[1], HostChar) then Ok else IllegalChars, s2)
  }

  /** Second stage: brackets, then host:port. */
  function Unbracketed(s: Session): Session {
    var pieces := Split(s.host, {'[', ']'});
    if |pieces| <= 1 then s
    else
      var ports := if |pieces| > 2 then Split(pieces[2], {':'}) else [""];
      s.(host := pieces[1], port := if |ports| > 1 then Atoi(ports[1]) else s.port)
  }

  function PortSplit(s: Session): Session {
    var pieces := Split(s.host, {':'});
    if |pieces| == 2 then s.(host := pieces[0], port := Atoi(pieces[1])) else s
  }

  function Located(s: Session): (Code, Session) {
    var t := PortSplit(Unbracketed(s));
    if 1 <= t.port <= 65535 then (Ok, t.(host := Lower(t.host))) else (PortInvalid, t)
  }

  /** Third stage: the bastion's address, or resolution. */
  function Resolved(s: Session, resolve: (string, int) -> Answer): (Code, Session) {
    if s.mode == Bastion then (Ok, s.(ips := [BASTION_IP] + s.ips))
    else
      var answer := resolve(s.host, s.port);
      (answer.code, s.(ips := s.ips + answer.ips))
  }

  function Parsed(user: string, s: Session, resolve: (string, int) -> Answer): (Code, Session) {
    if s.login.Some? then (Ok, s)
    else
      var (c1, s1) := Identify(user, s);
      if c1 != Ok then (c1, s1)
      else
        var (c2, s2) := Located(s1);
        if c2 != Ok then (c2, s2) else Resolved(s2, resolve)
  }

  // ----- The messages of the gateway ------------------------------------------------

  /** What the proxy reads while the gateway authenticates; `accepted` is a public key request that succeeds. */
  datatype Inbound = Expired | NoMessage | OtherRequest | AuthRequest(user: string, accepted: bool)

  /** Exited: the proxy disconnected and ended; Waiting: no further message. */
  datatype End = Returned(authenticated: bool) | Exited | Waiting

  /** The loop over messages, with the code the parser answered to each request: a failed lookup is
      answered and the loop goes on, every other refusal ends the process. */
  function Dispatched(s: Session, messages: seq<Inbound>, resolve: (string, int) -> Answer): (End, Session, seq<Code>)
    decreases |messages|
  {
    if messages == [] then (Waiting, s, [])
    else match messages[0]
         case Expired => (Returned(false), s, [])
         case NoMessage => (Returned(false), s, [])
         case OtherRequest => Dispatched(s, messages[1..], resolve)
         case AuthRequest(user, accepted) =>
           var (code, t) := Parsed(user, s, resolve);
           if code == Ok && accepted then (Returned(true), t, [code])
           else if code != Ok && code != ResolveFailed then (Exited, t, [code])
           else var (end, u, codes) := Dispatched(t, messages[1..], resolve);
                (end, u, [code] + codes)
  }

  class ProxySession {
    var login: Option<string>
    var mode: Mode
    var uniqid: string
    var host: string
    var port: int
    var idle: nat
    var ips: seq<string>

    function View(): Session
      reads this
    {
      Session(login, mode, uniqid, host, port, idle, ips)
    }

    constructor ()
      ensures View() == Session(None, Proxy, "", "", DEFAULT_PORT, 0, [])
    {
      login, mode, uniqid, host := None, Proxy, "", "";
      port, idle, ips := DEFAULT_PORT, 0, [];
    }

    /** Splits the login string, selects the mode and reads the idle time. */
    method IdentifyLogin(user: string) returns (code: Code)
      modifies this
      ensures (code, View()) == Identify(user, old(View()))
    {
      hide Matches, Split, Atol;
      login := Some(user);
      if !Matches(user, LoginChar) {
        return IllegalChars;
      }
      var parts := Split(user, {'@', '/'});
      if |parts| != 3 {
        return UsernameInvalid;
      }
      if parts[0] == ScannerName() {
        uniqid := "unset";
        mode := ChefRemote;
      } else {
        mode := Proxy;
        uniqid := parts[0];
        if !Matches(uniqid, UniqidChar) {
          return IllegalChars;
        }
      }
      host := parts[1];
      if BASTION <= host {
        mode := Bastion;
      }
      idle := AsUint32(Atol(parts[2]));
      if idle == 0 {
        idle := DEFAULT_IDLE;
      }
      return if Matches(host, HostChar) then Ok else IllegalChars;
    }

    /** Takes the port and the brackets off the host. */
    method LocateTarget() returns (code: Code)
      modifies this`host, this`port
      ensures (code, View()) == Located(old(View()))
    {
      hide Split, Atol, Lower;
      var pieces := Split(host, {'[', ']'});
      if |pieces| > 1 {
        if |pieces| > 2 {
          var ports := Split(pieces[2], {':'});
          if |ports| > 1 {
            port := Atoi(ports[1]);
          }
        }
        host := pieces[1];
      }
      assert View() == Unbracketed(old(View()));
      pieces := Split(host, {':'});
      if |pieces| == 2 {
        host, port := pieces[0], Atoi(pieces[1]);
      }
      if port < 1 || port > 65535 {
        return PortInvalid;
      }
      host := Lower(host);
      return Ok;
    }

    method StoreSplitLoginString(user: string, resolve: (string, int) -> Answer) returns (code: Code)
      modifies this
      ensures (code, View()) == Parsed(user, old(View()), resolve)
    {
      hide Identify, Located;
      if login.Some? {
        return Ok;
      }
      code := IdentifyLogin(user);
      if code != Ok {
        return;
      }
      code := LocateTarget();
      if code != Ok {
        return;
      }
      if mode == Bastion {
        ips := [BASTION_IP] + ips;
        return Ok;
      }
      var answer := resolve(host, port);
      ips := ips + answer.ips;
      return answer.code;
    }

    method GatewayAuthDispatch(messages: seq<Inbound>, resolve: (string, int) -> Answer)
      returns (end: End, codes: seq<Code>)
      modifies this
      ensures (end, View(), codes) == Dispatched(old(View()), messages, resolve)
    {
      hide Parsed;
      codes := [];
      ghost var (end', s', codes') := Dispatched(View(), messages, resolve);
      var rest := messages;
      while rest != []
        invariant var (e, t, c) := Dispatched(View(), rest, resolve); e == end' && t == s' && codes + c == codes'
        decreases |rest|
      {
        assert codes + [] == codes;
        var message := rest[0];
        ghost var before, c := codes, Dispatched(View(), rest, resolve).2;
        match message {
          case Expired => return Returned(false), codes;
          case NoMessage => return Returned(false), codes;
          case OtherRequest =>
          case AuthRequest(user, accepted) =>
            var code := StoreSplitLoginString(user, resolve);
            codes := codes + [code];
            if code == Ok {
              if accepted {
                return Returned(true), codes;
              }
            } else if code != ResolveFailed {
              return Exited, codes;
            }
            assert codes + c[1..] == before + c;
        }
        rest := rest[1..];
      }
      assert codes + [] == codes;
      return Waiting, codes;
    }
  }

  // ----- The printers --------------------------------------------------------------

  /** A target as a user writes it: a name or address, bare or in brackets, and perhaps a port. */
  datatype Target = Target(address: string, bracketed: bool, port: Option<nat>) {
    function Text(): string {
      (if bracketed then "[" + address + "]" else address) + (if port.Some? then ":" + Decimal(port.value) else "")
    }

    /** What the gateway lets through. Only bare names and addresses need characters at all. */
    predicate Valid() {
      && (forall i :: 0 <= i < |address| ==> AddressChar(address[i]))
      && (port.Some? ==> 1 <= port.value <= 65535)
      && (bracketed || (address != "" && (port.Some? ==> Avoids(address, {':'}))))
    }
  }

  predicate AddressChar(c: char) {
    HostChar(c) && c != '[' && c != ']'
  }

  predicate ValidUniqid(id: string) {
    id != "" && All(id, UniqidChar)
  }

  function Printed(id: string, text: string, idle: nat): string {
    id + "@" + text + "@" + Decimal(idle)
  }

  /** The gateway's three forms. */
  function GatewayLogin(uniqid: string, hostOrig: string): string {
    Printed(uniqid, hostOrig, GATEWAY_IDLE)
  }

  function BastionLogin(uniqid: string): string {
    Printed(uniqid, BASTION + ":" + Decimal(BASTION_PORT), GATEWAY_IDLE)
  }

  function ScannerLogin(host: string, port: nat): string {
    Printed(ScannerName(), host + ":" + Decimal(port), SCANNER_IDLE)
  }

  // ----- Parsing what was printed --------------------------------------------------

  /** The number of colons in an address. */
  function Colons(s: string): nat {
    |Split(s, {':'})| - 1
  }

  lemma SplitThree(id: string, text: string, last: string)
    requires Avoids(id, {'@', '/'}) && Avoids(text, {'@', '/'}) && Avoids(last, {'@', '/'})
    ensures Split(id + "@" + text + "@" + last, {'@', '/'}) == [id, text, last]
  {
    hide Split;
    SplitFirst(id, '@', text + "@" + last, {'@', '/'});
    assert id + "@" + (text + "@" + last) == id + "@" + text + "@" + last;
    SplitFirst(text, '@', last, {'@', '/'});
    SplitWhole(last, {'@', '/'});
  }

  lemma PrintedMatches(id: string, text: string, idle: nat)
    requires ValidUniqid(id) && text != "" && All(text, HostChar) && idle < 0x1_0000_0000
    ensures var user := Printed(id, text, idle);
            Matches(user, LoginChar) && Split(user, {'@', '/'}) == [id, text, Decimal(idle)]
    ensures Matches(id, UniqidChar) && Matches(text, HostChar)
    ensures AsUint32(Atol(Decimal(idle))) == idle
  {
    hide Split, Decimal, Atol;
    AtolOfDecimal(idle);
    var digits := Decimal(idle);
    SplitThree(id, text, digits);
    var user := Printed(id, text, idle);
    forall i | 0 <= i < |user|
      ensures LoginChar(user[i])
    {
      assert user[i] == '@' || user[i] in id || user[i] in text || user[i] in digits;
    }
  }

  lemma Identifies(id: string, text: string, idle: nat, s: Session)
    requires ValidUniqid(id) && text != "" && All(text, HostChar) && 0 < idle < 0x1_0000_0000
    ensures var (uniqid, mode) := if id == ScannerName() then ("unset", ChefRemote) else (id, Proxy);
            Identify(Printed(id, text, idle), s)
            == (Ok, s.(login := Some(Printed(id, text, idle)), uniqid := uniqid, host := text, idle := idle,
                       mode := if BASTION <= text then Bastion else mode))
  {
    hide Matches, Split, Atol, Printed, All;
    PrintedMatches(id, text, idle);
  }

  /** The brackets come off; a port behind them is taken. */
  lemma BracketsComeOff(target: Target, s: Session)
    requires target.Valid() && target.bracketed && s.host == target.Text()
    ensures Unbracketed(s) == s.(host := target.address, port := if target.port.Some? then target.port.value else s.port)
  {
    hide Split, Decimal, Atol;
    var rest := if target.port.Some? then ":" + Decimal(target.port.value) else "";
    assert target.Text() == "" + "[" + (target.address + "]" + rest);
    SplitFirst("", '[', target.address + "]" + rest, {'[', ']'});
    SplitFirst(target.address, ']', rest, {'[', ']'});
    SplitWhole(rest, {'[', ']'});
    assert Split(target.Text(), {'[', ']'}) == ["", target.address, rest];
    if target.port.Some? {
      PortText("", target.port.value);
      assert rest == "" + ":" + Decimal(target.port.value);
    } else {
      SplitWhole("", {':'});
    }
  }

  /** name:port splits into the two. */
  lemma PortText(name: string, port: nat)
    requires Avoids(name, {':'}) && port <= 65535
    ensures Split(name + ":" + Decimal(port), {':'}) == [name, Decimal(port)] && Atoi(Decimal(port)) == port
  {
    hide Split, Decimal, Atol;
    SplitFirst(name, ':', Decimal(port), {':'});
    SplitWhole(Decimal(port), {':'});
    AtolOfDecimal(port);
  }

  /** Host and port come back, the host in lower case and the port unchanged when none was printed -
      exactly when a text standing without a port of its own does not contain just one colon. */
  lemma LocatesTarget(target: Target, s: Session)
    requires target.Valid() && s.host == target.Text() && 1 <= s.port <= 65535
    ensures Located(s) == (Ok, Expected(target, s)) <==> Unambiguous(target)
  {
    hide Lower, Decimal, Split, Atol;
    if target.bracketed {
      BracketsComeOff(target, s);
    } else {
      SplitWhole(s.host, {'[', ']'});
      if target.port.Some? {
        PortText(target.address, target.port.value);
        assert s.host == target.address + ":" + Decimal(target.port.value);
      } else {
        assert s.host == target.address;
      }
    }
    if !Unambiguous(target) {
      ShorterPiece(target.address);
      assert |Lower(PortSplit(Unbracketed(s)).host)| < |Lower(target.address)|;
    }
  }

  function Expected(target: Target, s: Session): Session {
    s.(host := Lower(target.address), port := if target.port.Some? then target.port.value else s.port)
  }

  /** What stands before a bare port, or anything without exactly one colon. */
  predicate Unambiguous(target: Target) {
    (!target.bracketed && target.port.Some?) || Colons(target.address) != 1
  }

  lemma {:induction false} PieceLengths(s: string)
    ensures |Split(s, {':'})[0]| <= |s|
    ensures |Split(s, {':'})| > 1 ==> |Split(s, {':'})[0]| < |s|
  {
    if s != "" {
      PieceLengths(s[1..]);
    }
  }

  lemma ShorterPiece(s: string)
    requires Colons(s) == 1
    ensures |Split(s, {':'})[0]| < |s|
  {
    PieceLengths(s);
  }

  /** A printed string parsed by a fresh proxy session: unique id, host, port and idle time come back.
      The scanner's name in place of the id selects the remote mode, and a host that starts with
      "bastion" selects the bastion instead of a lookup. */
  lemma ParsesPrinted(id: string, target: Target, idle: nat, s: Session, resolve: (string, int) -> Answer)
    requires ValidUniqid(id) && target.Valid() && Unambiguous(target) && 0 < idle < 0x1_0000_0000
    requires s.login.None? && s.port == DEFAULT_PORT && s.ips == []
    ensures var (code, t) := Parsed(Printed(id, target.Text(), idle), s, resolve);
            var host := Lower(target.address);
            var port: int := if target.port.Some? then target.port.value else DEFAULT_PORT;
            var (uniqid, mode) := if id == ScannerName() then ("unset", ChefRemote) else (id, Proxy);
            && t.login == Some(Printed(id, target.Text(), idle))
            && t.uniqid == uniqid && t.host == host && t.port == port && t.idle == idle
            && t.mode == (if !target.bracketed && BASTION <= target.address then Bastion else mode)
            && (t.mode == Bastion ==> code == Ok && t.ips == [BASTION_IP])
            && (t.mode != Bastion ==> code == resolve(host, port).code && t.ips == resolve(host, port).ips)
  {
    hide Identify, Located, Printed, Unambiguous, Lower;
    var text := target.Text();
    TextIsHost(target);
    Identifies(id, text, idle, s);
    var s1 := Identify(Printed(id, text, idle), s).1;
    LocatesTarget(target, s1);
    BastionPrefix(target);
  }

  lemma TextIsHost(target: Target)
    requires target.Valid()
    ensures target.Text() != "" && All(target.Text(), HostChar)
  {
    var text := target.Text();
    forall i | 0 <= i < |text|
      ensures HostChar(text[i])
    {
      assert text[i] in {'[', ']', ':'} || text[i] in target.address || (target.port.Some? && text[i] in Decimal(target.port.value));
    }
  }

  lemma BastionPrefix(target: Target)
    requires target.Valid()
    ensures BASTION <= target.Text() <==> !target.bracketed && BASTION <= target.address
  {
    var text := target.Text();
    assert target.bracketed ==> text[0] == '[' && BASTION[0] == 'b';
    if !target.bracketed && target.port.Some? {
      assert text[|target.address|] == ':';
      if BASTION <= text {
        assert forall i :: 0 <= i < |BASTION| ==> text[i] == BASTION[i] != ':';
        assert text[..|BASTION|] == target.address[..|BASTION|];
      }
    }
  }

  lemma BastionIsATarget(target: Target)
    requires target == Target(BASTION, false, Some(BASTION_PORT))
    ensures target.Valid() && Unambiguous(target) && Lower(BASTION) == BASTION
    ensures target.Text() == BASTION + ":" + Decimal(BASTION_PORT)
  {
    hide Decimal, Lower;
  }

  lemma BareText(host: string, port: nat)
    ensures Target(host, false, Some(port)).Text() == host + ":" + Decimal(port)
  {
    hide Decimal;
  }

  lemma ScannerIsAUniqid()
    ensures ValidUniqid(ScannerName())
  {}

  /** The bastion's string selects the bastion, at its own port, whatever resolution would say. */
  lemma ParsesBastionLogin(uniqid: string, s: Session, resolve: (string, int) -> Answer)
    requires ValidUniqid(uniqid) && uniqid != ScannerName()
    requires s.login.None? && s.port == DEFAULT_PORT && s.ips == []
    ensures Parsed(BastionLogin(uniqid), s, resolve)
            == (Ok, Session(Some(BastionLogin(uniqid)), Bastion, uniqid, BASTION, BASTION_PORT, GATEWAY_IDLE, [BASTION_IP]))
  {
    var target := Target(BASTION, false, Some(BASTION_PORT));
    BastionIsATarget(target);
    hide Parsed, Printed, Lower, Unambiguous, Decimal, ValidUniqid;
    ParsesPrinted(uniqid, target, GATEWAY_IDLE, s, resolve);
  }

  /** The host key scanner's string selects the remote mode and hides the unique id - unless the host
      starts with "bastion", which selects the bastion here too. */
  lemma ParsesScannerLogin(host: string, port: nat, s: Session, resolve: (string, int) -> Answer)
    requires host != "" && 1 <= port <= 65535 && Avoids(host, {':'})
    requires forall i :: 0 <= i < |host| ==> AddressChar(host[i])
    requires s.login.None? && s.port == DEFAULT_PORT && s.ips == []
    ensures var (code, t) := Parsed(ScannerLogin(host, port), s, resolve);
            && t.uniqid == "unset" && t.host == Lower(host) && t.port == port && t.idle == SCANNER_IDLE
            && t.mode == (if BASTION <= host then Bastion else ChefRemote)
            && t.ips == (if BASTION <= host then [BASTION_IP] else resolve(Lower(host), port).ips)
  {
    var target := Target(host, false, Some(port));
    ScannerIsAUniqid();
    BareText(host, port);
    hide HostChar, IsLetter, Parsed, Printed, Lower, Decimal, ValidUniqid, ScannerName;
    ParsesPrinted(ScannerName(), target, SCANNER_IDLE, s, resolve);
  }

  // ----- What a parse that succeeded guarantees ------------------------------------

  lemma LowerIsLower(s: string)
    ensures forall i :: 0 <= i < |s| ==> !('A' <= Lower(s)[i] <= 'Z')
  {}

  lemma IdentifiedMeans(user: string, s: Session)
    requires Identify(user, s).0 == Ok
    ensures var t := Identify(user, s).1;
            && 0 < t.idle < 0x1_0000_0000
            && (t.uniqid == "unset" || Matches(t.uniqid, UniqidChar))
  {
    hide Matches, Split, Atol, ScannerName;
  }

  /** For any string at all: a first parse that gets as far as a lookup has a port in range, a positive
      idle time, and a unique id free of characters outside its class. */
  lemma AcceptedMeans(user: string, s: Session, resolve: (string, int) -> Answer)
    requires s.login.None?
    requires Identify(user, s).0 == Ok && Located(Identify(user, s).1).0 == Ok
    ensures var (code, t) := Parsed(user, s, resolve);
            && 1 <= t.port <= 65535 && 0 < t.idle < 0x1_0000_0000
            && (t.mode != Bastion ==> code == resolve(t.host, t.port).code)
            && (t.uniqid == "unset" || Matches(t.uniqid, UniqidChar))
            && (forall i :: 0 <= i < |t.host| ==> !('A' <= t.host[i] <= 'Z'))
  {
    hide Identify, Matches, Split, Atol;
    IdentifiedMeans(user, s);
    LowerIsLower(PortSplit(Unbracketed(Identify(user, s).1)).host);
  }

  // ----- What a refusal leads to ----------------------------------------------------

  /** The lookup answers Ok with some address, or a failure without any. */
  ghost predicate Resolver(resolve: (string, int) -> Answer) {
    forall host, port :: var a := resolve(host, port);
                         if a.code == Ok then a.ips != [] else a.code == ResolveFailed && a.ips == []
  }

  /** The login string of the first request; the only one that is ever parsed. */
  function FirstUser(messages: seq<Inbound>): Option<string> {
    if messages == [] || messages[0].Expired? || messages[0].NoMessage? then None
    else if messages[0].AuthRequest? then Some(messages[0].user)
    else FirstUser(messages[1..])
  }

  /** Once a string is stored, every later request is answered Ok and changes nothing. */
  lemma {:induction false} LaterAreOk(s: Session, messages: seq<Inbound>, resolve: (string, int) -> Answer)
    requires s.login.Some?
    ensures var (end, t, codes) := Dispatched(s, messages, resolve);
            && t == s && end != Exited && (forall k :: 0 <= k < |codes| ==> codes[k] == Ok)
            && (end == Returned(true) ==> codes != [])
    decreases |messages|
  {
    if messages != [] {
      LaterAreOk(s, messages[1..], resolve);
    }
  }

  /** What the session holds after any exchange is what the first string left there. */
  lemma {:induction false} FirstDecides(s: Session, messages: seq<Inbound>, resolve: (string, int) -> Answer)
    requires s.login.None?
    ensures var (end, t, codes) := Dispatched(s, messages, resolve);
            && (codes == [] <==> FirstUser(messages).None?) && (codes == [] ==> t == s && !end.Exited? && end != Returned(true))
            && (codes != [] ==>
                  && var first := Parsed(FirstUser(messages).value, s, resolve);
                  && codes[0] == first.0 && t == first.1
                  && (forall k :: 0 < k < |codes| ==> codes[k] == Ok)
                  && (end.Exited? <==> codes[0] !in {Ok, ResolveFailed})
                  && (end.Exited? ==> |codes| == 1)
                  && (end == Returned(true) ==> codes[|codes| - 1] == Ok))
    decreases |messages|
  {
    hide Parsed;
    if messages != [] {
      match messages[0]
      case OtherRequest => FirstDecides(s, messages[1..], resolve);
      case AuthRequest(user, accepted) =>
        var (code, t) := Parsed(user, s, resolve);
        StoresLogin(user, s, resolve);
        LaterAreOk(t, messages[1..], resolve);
      case _ =>
    }
  }

  /** The requests before the first time-out or missing message, and whether there is one of these. */
  function Requests(messages: seq<Inbound>): seq<Inbound> {
    if messages == [] || messages[0].Expired? || messages[0].NoMessage? then []
    else (if messages[0].AuthRequest? then [messages[0]] else []) + Requests(messages[1..])
  }

  predicate Breaks(messages: seq<Inbound>) {
    messages != [] && (messages[0].Expired? || messages[0].NoMessage? || Breaks(messages[1..]))
  }

  /** The place of the first request whose key is accepted, when strings count from `from` on; the number
      of requests if there is none. */
  function FirstAccepted(requests: seq<Inbound>, from: nat): (k: nat)
    ensures k <= |requests|
    ensures k < |requests| ==> k >= from && requests[k].AuthRequest? && requests[k].accepted
    ensures forall j :: from <= j < k && requests[j].AuthRequest? ==> !requests[j].accepted
    decreases |requests| - from
  {
    if from >= |requests| then |requests|
    else if requests[from].AuthRequest? && requests[from].accepted then from
    else FirstAccepted(requests, from + 1)
  }

  lemma {:induction false} FirstAcceptedLater(r: Inbound, requests: seq<Inbound>, from: nat)
    ensures FirstAccepted([r] + requests, from + 1) == FirstAccepted(requests, from) + 1
    decreases |requests| - from
  {
    assert from < |requests| ==> ([r] + requests)[from + 1] == requests[from];
    if from < |requests| {
      FirstAcceptedLater(r, requests, from + 1);
    }
  }

  function Oks(n: nat): (codes: seq<Code>)
    ensures |codes| == n && forall k :: 0 <= k < n ==> codes[k] == Ok
  {
    seq(n, _ => Ok)
  }

  /** How an exchange ends in which the requests from `from` on count: at the first accepted key. */
  function EndOf(messages: seq<Inbound>, from: nat): End {
    if FirstAccepted(Requests(messages), from) < |Requests(messages)| then Returned(true)
    else if Breaks(messages) then Returned(false) else Waiting
  }

  function Answers(messages: seq<Inbound>, from: nat): nat {
    var k := FirstAccepted(Requests(messages), from);
    if k < |Requests(messages)| then k + 1 else |Requests(messages)|
  }

  lemma {:induction false} StoredEndsAt(s: Session, messages: seq<Inbound>, resolve: (string, int) -> Answer)
    requires s.login.Some?
    ensures Dispatched(s, messages, resolve) == (EndOf(messages, 0), s, Oks(Answers(messages, 0)))
    decreases |messages|
  {
    if messages != [] && !messages[0].Expired? && !messages[0].NoMessage? {
      StoredEndsAt(s, messages[1..], resolve);
      if messages[0].AuthRequest? {
        FirstAcceptedLater(messages[0], Requests(messages[1..]), 0);
        assert [Ok] + Oks(Answers(messages[1..], 0)) == Oks(Answers(messages[1..], 0) + 1);
        assert Oks(1) == [Ok];
      } else {
        assert Requests(messages) == Requests(messages[1..]);
      }
    }
  }

  /** Every exchange with a fresh proxy. The gateway is authenticated exactly at the first request with an
      accepted key - the first request not counting when its lookup failed -, unless the first string was
      refused, which ends the process, and provided that no time-out and no missing message comes before;
      these end the exchange without it. Each request up to there is answered, all but the first by Ok. */
  lemma {:induction false} EndsAt(s: Session, messages: seq<Inbound>, resolve: (string, int) -> Answer)
    requires s.login.None?
    ensures FirstUser(messages).Some? <==> Requests(messages) != []
    ensures var (end, t, codes) := Dispatched(s, messages, resolve);
            if Requests(messages) == [] then end == (if Breaks(messages) then Returned(false) else Waiting) && codes == []
            else
              var first := Parsed(FirstUser(messages).value, s, resolve).0;
              if first == Ok then end == EndOf(messages, 0) && codes == Oks(Answers(messages, 0))
              else if first == ResolveFailed then end == EndOf(messages, 1) && codes == [first] + Oks(Answers(messages, 1) - 1)
              else end == Exited && codes == [first]
    decreases |messages|
  {
    hide Parsed, Dispatched, Requests, Breaks, FirstUser, EndOf, Answers;
    if messages == [] || messages[0].Expired? || messages[0].NoMessage? {
      StopsHere(s, messages, resolve);
    } else if messages[0].AuthRequest? {
      FirstEndsAt(s, messages, resolve);
    } else {
      SkipOther(s, messages, resolve);
      EndsAt(s, messages[1..], resolve);
    }
  }

  lemma StopsHere(s: Session, messages: seq<Inbound>, resolve: (string, int) -> Answer)
    requires messages == [] || messages[0].Expired? || messages[0].NoMessage?
    ensures Requests(messages) == [] && FirstUser(messages).None? && (Breaks(messages) <==> messages != [])
    ensures Dispatched(s, messages, resolve) == (if messages == [] then Waiting else Returned(false), s, [])
  {}

  lemma SkipOther(s: Session, messages: seq<Inbound>, resolve: (string, int) -> Answer)
    requires messages != [] && messages[0].OtherRequest?
    ensures Requests(messages) == Requests(messages[1..]) && FirstUser(messages) == FirstUser(messages[1..])
    ensures Breaks(messages) == Breaks(messages[1..])
    ensures EndOf(messages, 0) == EndOf(messages[1..], 0) && Answers(messages, 0) == Answers(messages[1..], 0)
    ensures EndOf(messages, 1) == EndOf(messages[1..], 1) && Answers(messages, 1) == Answers(messages[1..], 1)
    ensures Dispatched(s, messages, resolve) == Dispatched(s, messages[1..], resolve)
  {
    hide Parsed, FirstAccepted;
    assert Requests(messages) == Requests(messages[1..]);
  }

  lemma FirstEndsAt(s: Session, messages: seq<Inbound>, resolve: (string, int) -> Answer)
    requires s.login.None? && messages != [] && messages[0].AuthRequest?
    ensures var (end, t, codes) := Dispatched(s, messages, resolve);
            var first := Parsed(messages[0].user, s, resolve).0;
            if first == Ok then end == EndOf(messages, 0) && codes == Oks(Answers(messages, 0))
            else if first == ResolveFailed then end == EndOf(messages, 1) && codes == [first] + Oks(Answers(messages, 1) - 1)
            else end == Exited && codes == [first]
    ensures Requests(messages) != [] && FirstUser(messages) == Some(messages[0].user) && Answers(messages, 1) >= 1
  {
    hide Parsed;
    var rest := messages[1..];
    var (code, t) := Parsed(messages[0].user, s, resolve);
    StoresLogin(messages[0].user, s, resolve);
    StoredEndsAt(t, rest, resolve);
    FirstAcceptedLater(messages[0], Requests(rest), 0);
    assert FirstAccepted(Requests(messages), 1) == FirstAccepted(Requests(rest), 0) + 1;
    hide FirstAccepted;
    assert [Ok] + Oks(Answers(rest, 0)) == Oks(Answers(rest, 0) + 1);
    assert Oks(1) == [Ok];
  }

  /** In particular: no gateway is authenticated without an accepted key. */
  lemma AuthenticatedIff(s: Session, messages: seq<Inbound>, resolve: (string, int) -> Answer)
    requires s.login.None?
    ensures var requests, first := Requests(messages), FirstUser(messages);
            Dispatched(s, messages, resolve).0 == Returned(true)
            <==> first.Some?
                 && var code := Parsed(first.value, s, resolve).0;
                    || (code == Ok && exists k :: 0 <= k < |requests| && requests[k].AuthRequest? && requests[k].accepted)
                    || (code == ResolveFailed && exists k :: 1 <= k < |requests| && requests[k].AuthRequest? && requests[k].accepted)
  {
    hide Parsed, Dispatched;
    EndsAt(s, messages, resolve);
  }

  lemma StoresLogin(user: string, s: Session, resolve: (string, int) -> Answer)
    ensures Parsed(user, s, resolve).1.login.Some?
  {
    hide Split, Atol, Matches;
  }

  /** A parse that came through has an address; one whose lookup failed has none. */
  lemma AddressesIff(user: string, s: Session, resolve: (string, int) -> Answer)
    requires s.login.None? && s.ips == [] && Resolver(resolve)
    ensures var (code, t) := Parsed(user, s, resolve);
            (code == Ok ==> t.ips != []) && (code == ResolveFailed ==> t.ips == [])
  {
    hide Split, Atol, Matches;
  }

  /** Any exchange with a fresh proxy: a request is answered Ok after one was refused exactly when the
      first string's lookup had failed and another request follows; every other refusal is the last
      answer. And an authenticated gateway is left with a session without any address exactly when that
      first lookup had failed, whatever its later strings said. */
  lemma OkAfterRefusalIff(s: Session, messages: seq<Inbound>, resolve: (string, int) -> Answer)
    requires s.login.None? && s.ips == [] && Resolver(resolve)
    ensures var (end, t, codes) := Dispatched(s, messages, resolve);
            && ((exists i, j :: 0 <= i < j < |codes| && codes[i] != Ok && codes[j] == Ok)
                <==> |codes| > 1 && codes[0] == ResolveFailed)
            && (|codes| > 0 && codes[0] != Ok && codes[0] != ResolveFailed ==> end.Exited? && |codes| == 1)
            && (end == Returned(true) ==> codes != [] && (t.ips == [] <==> codes[0] == ResolveFailed))
  {
    var (end, t, codes) := Dispatched(s, messages, resolve);
    FirstDecides(s, messages, resolve);
    hide Parsed, Dispatched;
    if codes != [] {
      AddressesIff(FirstUser(messages).value, s, resolve);
      if |codes| > 1 && codes[0] == ResolveFailed {
        assert codes[1] == Ok;
      }
    }
  }

  /** At a resolver that knows no host: any printed string of the gateway is refused, and the next request
      with any string at all authenticates it, for the first host and without an address. */
  lemma UnresolvedThenAuthenticated(id: string, target: Target, idle: nat, second: string, s: Session)
    requires ValidUniqid(id) && target.Valid() && Unambiguous(target) && 0 < idle < 0x1_0000_0000
    requires s.login.None? && s.port == DEFAULT_PORT && s.ips == [] && (target.bracketed || !(BASTION <= target.address))
    ensures var resolve := (host: string, port: int) => Answer(ResolveFailed, []);
            var messages := [AuthRequest(Printed(id, target.Text(), idle), false), AuthRequest(second, true)];
            var (end, t, codes) := Dispatched(s, messages, resolve);
            && end == Returned(true) && codes == [ResolveFailed, Ok]
            && t.host == Lower(target.address) && t.ips == []
  {
    var resolve := (host: string, port: int) => Answer(ResolveFailed, []);
    var first := Printed(id, target.Text(), idle);
    var messages := [AuthRequest(first, false), AuthRequest(second, true)];
    assert messages[1..] == [AuthRequest(second, true)];
    ParsesPrinted(id, target, idle, s, resolve);
    StoresLogin(first, s, resolve);
    var t := Parsed(first, s, resolve).1;
    assert Parsed(second, t, resolve) == (Ok, t);
    hide Parsed, Printed, Unambiguous;
    assert Dispatched(t, messages[1..], resolve) == (Returned(true), t, [Ok]);
  }
}
