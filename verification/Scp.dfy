/** The SCP inspector: it watches the two sides of an scp channel packet by packet, logs file and
    directory headers, and skips file content without being told where packets begin or end. */
module Scp {
  import opened Text

  // ----- sscanf on the rest of a packet --------------------------------------------

  function SkipSpace(s: string): (r: string)
    ensures |r| <= |s|
  {
    if s != [] && IsSpace(s[0]) then SkipSpace(s[1..]) else s
  }

  /** How many leading characters a %s conversion of width `max` takes. */
  function WordLength(s: string, max: nat): (n: nat)
    ensures n <= |s| && n <= max
  {
    if s == [] || max == 0 || IsSpace(s[0]) || s[0] == NUL then 0 else 1 + WordLength(s[1..], max - 1)
  }

  datatype Scan<T> = NoMatch | Match(value: T, rest: string)

  function ScanWord(s: string, max: nat): Scan<string> {
    var t := SkipSpace(s);
    var n := WordLength(t, max);
    if n == 0 then NoMatch else Match(t[..n], t[n..])
  }

  function ScanLong(s: string): Scan<int> {
    var t := SkipSpace(s);
    var signed := t != [] && (t[0] == '-' || t[0] == '+');
    var u := if signed then t[1..] else t;
    var n := DigitRun(u);
    if n == 0 then NoMatch
    else Match(if signed && t[0] == '-' then -(Value(u[..n]) as int) else Value(u[..n]), u[n..])
  }

  datatype Header = Header(mode: string, length: int, name: string)

  /** "%4s %ld %1023s" */
  function ScanHeader(s: string): Scan<Header> {
    match ScanWord(s, 4)
    case NoMatch => NoMatch
    case Match(mode, s1) =>
      match ScanLong(s1)
      case NoMatch => NoMatch
      case Match(length, s2) =>
        match ScanWord(s2, 1023)
        case NoMatch => NoMatch
        case Match(name, s3) => Match(Header(mode, length, name), s3)
  }

  /** "%ld 0 %ld 0", of which the two numbers are wanted. */
  function ScanTimes(s: string): Scan<(int, int)> {
    match ScanLong(s)
    case NoMatch => NoMatch
    case Match(mtime, s1) =>
      var t := SkipSpace(s1);
      if t == [] || t[0] != '0' then NoMatch else
      match ScanLong(t[1..])
      case NoMatch => NoMatch
      case Match(atime, s2) => Match((mtime, atime), s2)
  }

  /** "%1023[^\n]": the length of the line, 0 when nothing matches. */
  function LineLength(s: string, max: nat): (n: nat)
    ensures n <= |s|
  {
    if s == [] || max == 0 || s[0] == '\n' || s[0] == NUL then 0 else 1 + LineLength(s[1..], max - 1)
  }

  /** A C `char` as an `int`, on a machine where it is signed. */
  function Signed(c: char): int {
    if c as int < 128 then c as int else c as int - 256
  }

  // ----- State ---------------------------------------------------------------------

  datatype Side = Client | Target

  datatype LogLine =
    | CopyFile(path: string, mode: string, length: int)
    | EnterDirectory(path: string, mode: string, length: int)
    | LeaveDirectory
    | Times(mtime: int, atime: int)
    | SourceMessage(level: int, text: string)
    | SinkReply(level: int, text: string)

  datatype Report = Report(mayCount: bool, filesWritten: nat, bytesWritten: int, filesRead: nat, bytesRead: int) {
    function Count(sender: Side, bytes: int): Report {
      if !mayCount then this
      else if sender.Client? then this.(mayCount := false, filesWritten := filesWritten + 1, bytesWritten := bytesWritten + bytes)
      else this.(mayCount := false, filesRead := filesRead + 1, bytesRead := bytesRead + bytes)
    }
  }

  /** One channel, and the report it shares with the others of its session. */
  datatype State = State(readAhead: int, dirName: string, dirDepth: int, report: Report, log: seq<LogLine>)

  function Join(dir: string, name: string): string {
    dir + (if |dir| > 0 then "/" else "") + name
  }

  function Parent(dir: string): string {
    var slash := LastIndex(dir, '/');
    if slash > 0 then dir[..slash] else dir
  }

  // ----- What the inspector computes -----------------------------------------------

  /** The effect of the command character `rest[0]`, and how much of the packet it consumes. */
  function Command(s: State, rest: string): (r: (State, nat))
    requires rest != []
    ensures 1 <= r.1
  {
    var args := rest[1..];
    match rest[0]
    case 'C' =>
      (match ScanHeader(args)
       case NoMatch => (s, 1)
       case Match(h, _) =>
         (s.(log := s.log + [CopyFile(Join(s.dirName, h.name), h.mode, h.length)],
             readAhead := h.length,
             report := s.report.(mayCount := true)), |rest|))
    case 'D' =>
      (match ScanHeader(args)
       case NoMatch => (s.(dirDepth := s.dirDepth + 1), |rest|)
       case Match(h, _) =>
         var path := Join(s.dirName, h.name);
         (s.(dirName := path, dirDepth := s.dirDepth + 1,
             log := s.log + [EnterDirectory(path, h.mode, h.length)]), |rest|))
    case 'E' =>
      (s.(dirDepth := s.dirDepth - 1, dirName := Parent(s.dirName), log := s.log + [LeaveDirectory]), |rest|)
    case 'T' =>
      (match ScanTimes(args)
       case NoMatch => (s, |rest|)
       case Match(times, _) => (s.(log := s.log + [Times(times.0, times.1)]), |rest|))
    case c =>
      if Signed(c) <= 0 then (s, 1)
      else var n := LineLength(args, 1023);
           if n == 0 then (s, 1) else (s.(log := s.log + [SourceMessage(Signed(c), args[..n])]), n + 2)
  }

  function Commands(s: State, rest: string): State
    decreases |rest|
  {
    if rest == [] then s
    else var (t, n) := Command(s, rest);
         if n >= |rest| then t else Commands(t, rest[n..])
  }

  /** A packet from the side that sends files. */
  function FromSource(s: State, sender: Side, data: string): State {
    if s.readAhead > 0 then
      var t := s.(report := s.report.Count(sender, s.readAhead));
      if |data| > s.readAhead + 1 then Commands(t.(readAhead := 0), data[s.readAhead..])
      else t.(readAhead := if s.readAhead > |data| then s.readAhead - |data| else 0)
    else Commands(s, data)
  }

  function FirstNewline(s: string): (i: int)
    ensures -1 <= i < |s|
  {
    if s == [] || s[0] == NUL then -1
    else if s[0] == '\n' then 0
    else var i := FirstNewline(s[1..]); if i < 0 then -1 else i + 1
  }

  /** A packet from the side that receives files: a reply code with an optional text. */
  function FromSink(s: State, data: string): State
    requires data != []
  {
    var reply := Signed(data[0]);
    if 0 < reply < 3 then
      var i := FirstNewline(data[1..]);
      s.(log := s.log + [SinkReply(reply, if i >= 0 then data[1..][..i] else "")],
         readAhead := 0, report := s.report.(mayCount := false))
    else s
  }

  datatype Packet = Source(data: string) | Sink(data: string) {
    predicate Valid() { Sink? ==> data != [] }
  }

  function Inspect(s: State, source: Side, p: Packet): State
    requires p.Valid()
  {
    match p
    case Source(data) => FromSource(s, source, data)
    case Sink(data) => FromSink(s, data)
  }

  function InspectAll(s: State, source: Side, packets: seq<Packet>): State
    requires forall p :: p in packets ==> p.Valid()
    decreases |packets|
  {
    if packets == [] then s else InspectAll(Inspect(s, source, packets[0]), source, packets[1..])
  }

  // ----- Sessions ------------------------------------------------------------------

  predicate IsWord(s: string, max: nat) {
    0 < |s| <= max && forall i :: 0 <= i < |s| ==> !IsSpace(s[i]) && s[i] != NUL
  }

  /** What "%1023s" reads of a name: its first word, behind leading white space. */
  function FirstWord(name: string): string {
    var t := SkipSpace(name);
    t[..WordLength(t, 1023)]
  }

  /** One line of a header. */
  predicate IsLine(s: string) {
    '\n' !in s && NUL !in s
  }

  /** A name with or without white space, as long as there is something to read in it. */
  predicate IsFileName(s: string) {
    IsLine(s) && '/' !in s && FirstWord(s) != ""
  }

  /** What an scp source sends: files with their content cut into packets at will, and directories. */
  datatype Entry =
    | File(name: string, mode: string, content: string, chunks: seq<string>)
    | Dir(name: string, mode: string, length: nat, entries: seq<Entry>)

  function Concat(chunks: seq<string>): string {
    if chunks == [] then [] else chunks[0] + Concat(chunks[1..])
  }

  predicate WellFormed(e: Entry) {
    match e
    case File(name, mode, content, chunks) =>
      IsFileName(name) && IsWord(mode, 4) && Concat(chunks) == content + [NUL]
    case Dir(name, mode, _, entries) =>
      IsFileName(name) && IsWord(mode, 4) && forall x :: x in entries ==> WellFormed(x)
  }

  function HeaderText(letter: char, mode: string, length: nat, name: string): string {
    [letter] + mode + " " + Decimal(length) + " " + name + "\n"
  }

  function Sources(chunks: seq<string>): (r: seq<Packet>)
    ensures |r| == |chunks| && forall i :: 0 <= i < |r| ==> r[i] == Source(chunks[i])
  {
    seq(|chunks|, i requires 0 <= i < |chunks| => Source(chunks[i]))
  }

  /** The packets of one entry: one for each header and for the end of a directory, the content as cut. */
  function Packets(e: Entry): (r: seq<Packet>)
    ensures forall p :: p in r ==> p.Source?
    decreases e, 1
  {
    match e
    case File(name, mode, content, chunks) =>
      [Source(HeaderText('C', mode, |content|, name))] + Sources(chunks)
    case Dir(name, mode, length, entries) =>
      [Source(HeaderText('D', mode, length, name))] + AllPackets(entries) + [Source("E\n")]
  }

  function AllPackets(entries: seq<Entry>): (r: seq<Packet>)
    ensures forall p :: p in r ==> p.Source?
    decreases entries, 0
  {
    if entries == [] then [] else Packets(entries[0]) + AllPackets(entries[1..])
  }

  /** What is logged about an entry found in directory `dir`: every name cut to its first word. */
  function Expected(dir: string, e: Entry): seq<LogLine>
    decreases e, 1
  {
    match e
    case File(name, mode, content, _) => [CopyFile(Join(dir, FirstWord(name)), mode, |content|)]
    case Dir(name, mode, length, entries) =>
      var path := Join(dir, FirstWord(name));
      [EnterDirectory(path, mode, length)] + AllExpected(path, entries) + [LeaveDirectory]
  }

  function AllExpected(dir: string, entries: seq<Entry>): seq<LogLine>
    decreases entries, 0
  {
    if entries == [] then [] else Expected(dir, entries[0]) + AllExpected(dir, entries[1..])
  }

  /** Number and total size of the non-empty files. */
  function Files(e: Entry): nat
    decreases e, 1
  {
    match e
    case File(_, _, content, _) => if content == [] then 0 else 1
    case Dir(_, _, _, entries) => AllFiles(entries)
  }

  function AllFiles(entries: seq<Entry>): nat
    decreases entries, 0
  {
    if entries == [] then 0 else Files(entries[0]) + AllFiles(entries[1..])
  }

  function Bytes(e: Entry): nat
    decreases e, 1
  {
    match e
    case File(_, _, content, _) => |content|
    case Dir(_, _, _, entries) => AllBytes(entries)
  }

  function AllBytes(entries: seq<Entry>): nat
    decreases entries, 0
  {
    if entries == [] then 0 else Bytes(entries[0]) + AllBytes(entries[1..])
  }

  /** `t` is `s` after transferring `files` files of `bytes` bytes in total, with `lines` logged. */
  ghost predicate Transferred(s: State, source: Side, t: State, files: nat, bytes: nat, lines: seq<LogLine>) {
    && t.readAhead == 0 && t.dirName == s.dirName && t.dirDepth == s.dirDepth
    && t.log == s.log + lines
    && if source.Client? then
         && t.report.filesWritten == s.report.filesWritten + files
         && t.report.bytesWritten == s.report.bytesWritten + bytes
         && t.report.filesRead == s.report.filesRead && t.report.bytesRead == s.report.bytesRead
       else
         && t.report.filesRead == s.report.filesRead + files
         && t.report.bytesRead == s.report.bytesRead + bytes
         && t.report.filesWritten == s.report.filesWritten && t.report.bytesWritten == s.report.bytesWritten
  }

  // ----- Headers -------------------------------------------------------------------

  lemma {:induction false} WordLengthOf(word: string, rest: string, max: nat)
    requires |word| <= max && (forall i :: 0 <= i < |word| ==> !IsSpace(word[i]) && word[i] != NUL)
    requires rest != [] && IsSpace(rest[0])
    ensures WordLength(word + rest, max) == |word|
  {
    if word == [] {
      assert word + rest == rest;
    } else {
      WordLengthOf(word[1..], rest, max - 1);
      assert (word + rest)[1..] == word[1..] + rest;
    }
  }

  lemma ScanWordOf(lead: string, word: string, rest: string, max: nat)
    requires lead == "" || lead == " "
    requires IsWord(word, max) && rest != [] && IsSpace(rest[0])
    ensures ScanWord(lead + word + rest, max) == Match(word, rest)
  {
    WordLengthOf(word, rest, max);
    var s := lead + word + rest;
    assert s == lead + (word + rest);
    assert SkipSpace(word + rest) == word + rest;
    if lead == " " {
      assert s[0] == ' ' && s[1..] == word + rest;
    }
    assert SkipSpace(s) == word + rest;
    assert (word + rest)[..|word|] == word && (word + rest)[|word|..] == rest;
  }

  lemma ScanLongOf(n: nat, rest: string)
    requires rest != [] && IsSpace(rest[0])
    ensures ScanLong(" " + Decimal(n) + rest) == Match(n, rest)
  {
    var d := Decimal(n);
    var s := " " + d + rest;
    assert s[1..] == d + rest;
    assert SkipSpace(d + rest) == d + rest;
    DigitRunOf(d, rest);
    assert (d + rest)[..|d|] == d && (d + rest)[|d|..] == rest;
    ValueOfDecimal(n);
  }

  lemma {:induction false} SkipSpaceAppend(s: string, rest: string)
    ensures SkipSpace(s + rest) == if SkipSpace(s) == "" then SkipSpace(rest) else SkipSpace(s) + rest
  {
    if s == "" {
      assert s + rest == rest;
    } else {
      assert (s + rest)[1..] == s[1..] + rest;
      if IsSpace(s[0]) {
        SkipSpaceAppend(s[1..], rest);
      }
    }
  }

  lemma {:induction false} WordLengthAppend(s: string, rest: string, max: nat)
    requires rest != [] && IsSpace(rest[0])
    ensures WordLength(s + rest, max) == WordLength(s, max)
  {
    if s == "" {
      assert s + rest == rest;
    } else if max > 0 {
      WordLengthAppend(s[1..], rest, max - 1);
      assert (s + rest)[1..] == s[1..] + rest;
    }
  }

  lemma ScanNameOf(name: string)
    requires IsLine(name)
    ensures var t := SkipSpace(name);
            ScanWord(" " + name + "\n", 1023)
            == if FirstWord(name) == "" then NoMatch else Match(FirstWord(name), t[|FirstWord(name)|..] + "\n")
  {
    var t := SkipSpace(name);
    var n := WordLength(t, 1023);
    assert (" " + name + "\n")[1..] == name + "\n";
    SkipSpaceAppend(name, "\n");
    WordLengthAppend(t, "\n", 1023);
    SkippedStarts(name);
    if t != "" {
      assert (t + "\n")[..n] == t[..n] && (t + "\n")[n..] == t[n..] + "\n";
    }
  }

  /** What is left behind white space is a piece of the text that starts with something else. */
  lemma {:induction false} SkippedStarts(s: string)
    ensures SkipSpace(s) != "" ==> !IsSpace(SkipSpace(s)[0])
    ensures forall c :: c in SkipSpace(s) ==> c in s
  {
    if s != "" && IsSpace(s[0]) {
      SkippedStarts(s[1..]);
    }
  }

  lemma FirstWordIn(name: string)
    ensures forall c :: c in FirstWord(name) ==> c in name
  {
    SkippedStarts(name);
  }

  lemma {:induction false} WholeWord(s: string, max: nat)
    ensures WordLength(s, max) == |s| <==> s == "" || IsWord(s, max)
  {
    if s != "" && max > 0 {
      WholeWord(s[1..], max - 1);
      assert s == [s[0]] + s[1..];
      assert forall i :: 0 < i < |s| ==> s[i] == s[1..][i - 1];
    }
  }

  /** The header an scp source prints is read back with the first word of its name - and not at all when
      the name has none. */
  lemma ScanHeaderOf(letter: char, mode: string, length: nat, name: string)
    requires IsWord(mode, 4) && IsLine(name)
    ensures var text := HeaderText(letter, mode, length, name);
            && |text| > 0 && text[0] == letter
            && (FirstWord(name) == "" ==> ScanHeader(text[1..]) == NoMatch)
            && (FirstWord(name) != "" ==> ScanHeader(text[1..]).Match?
                                          && ScanHeader(text[1..]).value == Header(mode, length, FirstWord(name)))
  {
    var text := HeaderText(letter, mode, length, name);
    var s2 := " " + name + "\n";
    var s1 := " " + Decimal(length) + s2;
    assert text[1..] == "" + mode + s1;
    ScanWordOf("", mode, s1, 4);
    ScanLongOf(length, s2);
    ScanNameOf(name);
  }

  /** The name logged is the name sent exactly when the name has no white space and fits. */
  lemma LoggedIsSent(name: string)
    requires IsLine(name)
    ensures FirstWord(name) == name <==> |name| <= 1023 && forall i :: 0 <= i < |name| ==> !IsSpace(name[i])
  {
    SkippedStarts(name);
    if name != "" && !IsSpace(name[0]) {
      WholeWord(name, 1023);
      assert forall i :: 0 <= i < |name| ==> name[i] in name;
    } else if name != "" {
      SkippedShorter(name);
    }
  }

  lemma {:induction false} SkippedShorter(s: string)
    ensures s != "" && IsSpace(s[0]) ==> |SkipSpace(s)| < |s|
  {
    if s != "" {
      SkippedShorter(s[1..]);
    }
  }

  // ----- Properties ----------------------------------------------------------------

  lemma {:induction false} InspectAppend(s: State, source: Side, a: seq<Packet>, b: seq<Packet>)
    requires forall p :: p in a || p in b ==> p.Valid()
    ensures forall p :: p in a + b ==> p.Valid()
    ensures InspectAll(s, source, a + b) == InspectAll(InspectAll(s, source, a), source, b)
    decreases |a|
  {
    if a == [] {
      assert a + b == b;
    } else {
      InspectAppend(Inspect(s, source, a[0]), source, a[1..], b);
      assert (a + b)[1..] == a[1..] + b;
    }
  }

  /** While content is being skipped, a run of packets that holds no more than the missing content and
      its trailing NUL - cut anywhere, empty packets included - is never read as commands: it only
      counts the file, once and with the length that was missing, and uses the read-ahead up. */
  lemma {:induction false} ContentIsSkipped(s: State, source: Side, chunks: seq<string>)
    requires 0 <= s.readAhead
    requires |Concat(chunks)| == s.readAhead + 1
    requires forall k :: s.readAhead <= k < |Concat(chunks)| ==> Concat(chunks)[k] == NUL
    ensures InspectAll(s, source, Sources(chunks))
            == s.(readAhead := 0, report := if s.readAhead > 0 then s.report.Count(source, s.readAhead) else s.report)
    decreases |chunks|
  {
    var c, rest := chunks[0], chunks[1..];
    assert Concat(chunks) == c + Concat(rest);
    assert Sources(chunks)[1..] == Sources(rest);
    var t := FromSource(s, source, c);
    if s.readAhead > 0 {
      assert t.report.Count(source, t.readAhead) == t.report;
      if |c| > s.readAhead {
        assert t.readAhead == 0;
        OnlyNulsLeft(t, source, rest, |Concat(rest)|);
      } else {
        assert t.readAhead == s.readAhead - |c|;
        assert forall k :: t.readAhead <= k < |Concat(rest)| ==> Concat(rest)[k] == Concat(chunks)[k + |c|];
        ContentIsSkipped(t, source, rest);
      }
    } else {
      OnlyNulsLeft(s, source, chunks, 1);
    }
  }

  lemma NulsAreIgnored(s: State, data: string)
    requires forall k :: 0 <= k < |data| ==> data[k] == NUL
    ensures Commands(s, data) == s
  {}

  lemma {:induction false} OnlyNulsLeft(s: State, source: Side, chunks: seq<string>, n: nat)
    requires s.readAhead == 0
    requires |Concat(chunks)| == n
    requires forall k :: 0 <= k < n ==> Concat(chunks)[k] == NUL
    ensures InspectAll(s, source, Sources(chunks)) == s
    decreases |chunks|
  {
    if chunks != [] {
      var c, rest := chunks[0], chunks[1..];
      assert Concat(chunks) == c + Concat(rest);
      assert forall k :: 0 <= k < |c| ==> c[k] == Concat(chunks)[k];
      assert forall k :: 0 <= k < |Concat(rest)| ==> Concat(rest)[k] == Concat(chunks)[k + |c|];
      assert Sources(chunks)[1..] == Sources(rest);
      NulsAreIgnored(s, c);
      OnlyNulsLeft(s, source, rest, |Concat(rest)|);
    }
  }

  /** Leaving a directory undoes entering it exactly when it was entered from a named directory and
      its own name holds no slash. */
  lemma LeaveUndoesEnter(dir: string, name: string)
    requires name != ""
    ensures Parent(Join(dir, name)) == dir <==> dir != "" && '/' !in name
  {
    var path := Join(dir, name);
    var slash := LastIndex(path, '/');
    if dir != "" {
      assert path[|dir|] == '/';
      if '/' in name {
        var i :| 0 <= i < |name| && name[i] == '/';
        assert path[|dir| + 1 + i] == '/';
        assert |Parent(path)| > |dir|;
      } else {
        assert forall j :: |dir| < j < |path| ==> path[j] == name[j - |dir| - 1];
        assert slash == |dir|;
        assert path[..slash] == dir;
      }
    } else {
      assert path == name;
      assert |Parent(path)| > 0;
    }
  }

  lemma FileIsTransferred(s: State, source: Side, e: Entry)
    requires e.File? && WellFormed(e) && s.readAhead == 0
    ensures Transferred(s, source, InspectAll(s, source, Packets(e)), Files(e), Bytes(e), Expected(s.dirName, e))
  {
    var header := HeaderText('C', e.mode, |e.content|, e.name);
    ScanHeaderOf('C', e.mode, |e.content|, e.name);
    var t := FromSource(s, source, header);
    assert t == Command(s, header).0;
    assert Packets(e)[1..] == Sources(e.chunks);
    ContentIsSkipped(t, source, e.chunks);
  }

  lemma EnterIsInspected(s: State, source: Side, mode: string, length: nat, name: string)
    requires s.readAhead == 0 && IsWord(mode, 4) && IsFileName(name)
    ensures var path := Join(s.dirName, FirstWord(name));
            FromSource(s, source, HeaderText('D', mode, length, name))
            == s.(dirName := path, dirDepth := s.dirDepth + 1, log := s.log + [EnterDirectory(path, mode, length)])
  {
    ScanHeaderOf('D', mode, length, name);
    assert Commands(s, HeaderText('D', mode, length, name)) == Command(s, HeaderText('D', mode, length, name)).0;
  }

  lemma LeaveIsInspected(s: State, source: Side)
    requires s.readAhead == 0
    ensures FromSource(s, source, "E\n")
            == s.(dirName := Parent(s.dirName), dirDepth := s.dirDepth - 1, log := s.log + [LeaveDirectory])
  {
    assert Commands(s, "E\n") == Command(s, "E\n").0;
  }

  lemma OnePacket(s: State, source: Side, p: Packet)
    requires p.Valid()
    ensures InspectAll(s, source, [p]) == Inspect(s, source, p)
  {
    assert [p][1..] == [];
  }

  lemma DirectoryUnfolds(s: State, source: Side, e: Entry)
    requires e.Dir? && WellFormed(e)
    ensures InspectAll(s, source, Packets(e))
            == FromSource(InspectAll(FromSource(s, source, HeaderText('D', e.mode, e.length, e.name)),
                                     source, AllPackets(e.entries)), source, "E\n")
  {
    var header, inner, last := Source(HeaderText('D', e.mode, e.length, e.name)), AllPackets(e.entries), Source("E\n");
    InspectAppend(s, source, [header] + inner, [last]);
    InspectAppend(s, source, [header], inner);
    OnePacket(s, source, header);
    OnePacket(InspectAll(s, source, [header] + inner), source, last);
  }

  lemma DirectoryIsTransferred(s: State, source: Side, a: State, b: State, mode: string, length: nat, name: string,
                               files: nat, bytes: nat, lines: seq<LogLine>)
    requires IsFileName(name) && s.dirName != "" && s.readAhead == 0
    requires var path := Join(s.dirName, FirstWord(name));
             a == s.(dirName := path, dirDepth := s.dirDepth + 1, log := s.log + [EnterDirectory(path, mode, length)])
    requires Transferred(a, source, b, files, bytes, lines)
    ensures Transferred(s, source,
                        b.(dirName := Parent(b.dirName), dirDepth := b.dirDepth - 1, log := b.log + [LeaveDirectory]),
                        files, bytes,
                        [EnterDirectory(Join(s.dirName, FirstWord(name)), mode, length)] + lines + [LeaveDirectory])
  {
    FirstWordIn(name);
    LeaveUndoesEnter(s.dirName, FirstWord(name));
    var enter := [EnterDirectory(Join(s.dirName, FirstWord(name)), mode, length)];
    assert (s.log + enter + lines) + [LeaveDirectory] == s.log + (enter + lines + [LeaveDirectory]);
  }

  /** One channel by itself. For every directory tree sent into a named directory, with the files' content and trailing NULs
      cut into packets in any way: the log holds exactly the headers and directory ends in order (each
      name cut to its first word, which is the whole of it exactly when it has no white space), each
      non-empty file is counted once with its full length, nothing of any content is taken for a
      command, and directory name and depth come back to where they were. */
  lemma {:induction false} EntryIsTransferred(s: State, source: Side, e: Entry)
    requires WellFormed(e) && s.readAhead == 0 && s.dirName != ""
    ensures Transferred(s, source, InspectAll(s, source, Packets(e)), Files(e), Bytes(e), Expected(s.dirName, e))
    decreases e, 1
  {
    if e.File? {
      FileIsTransferred(s, source, e);
      return;
    }
    DirectoryUnfolds(s, source, e);
    EnterIsInspected(s, source, e.mode, e.length, e.name);
    var a := FromSource(s, source, HeaderText('D', e.mode, e.length, e.name));
    AllTransferred(a, source, e.entries);
    var b := InspectAll(a, source, AllPackets(e.entries));
    LeaveIsInspected(b, source);
    DirectoryIsTransferred(s, source, a, b, e.mode, e.length, e.name,
                           AllFiles(e.entries), AllBytes(e.entries), AllExpected(a.dirName, e.entries));
  }

  lemma {:induction false} AllTransferred(s: State, source: Side, entries: seq<Entry>)
    requires (forall x :: x in entries ==> WellFormed(x)) && s.readAhead == 0 && s.dirName != ""
    ensures Transferred(s, source, InspectAll(s, source, AllPackets(entries)),
                        AllFiles(entries), AllBytes(entries), AllExpected(s.dirName, entries))
    decreases entries, 0
  {
    if entries != [] {
      EntryIsTransferred(s, source, entries[0]);
      InspectAppend(s, source, Packets(entries[0]), AllPackets(entries[1..]));
      var t := InspectAll(s, source, Packets(entries[0]));
      AllTransferred(t, source, entries[1..]);
      TransfersCompose(s, source, t, InspectAll(t, source, AllPackets(entries[1..])),
                       Files(entries[0]), Bytes(entries[0]), Expected(s.dirName, entries[0]),
                       AllFiles(entries[1..]), AllBytes(entries[1..]), AllExpected(s.dirName, entries[1..]));
    }
  }

  lemma TransfersCompose(s: State, source: Side, t: State, u: State,
                         f: nat, b: nat, l: seq<LogLine>, f': nat, b': nat, l': seq<LogLine>)
    requires Transferred(s, source, t, f, b, l) && Transferred(t, source, u, f', b', l')
    ensures Transferred(s, source, u, f + f', b + b', l + l')
  {}

  /** Time stamps are logged as they are sent, modification before access, and change nothing else. */
  lemma TimesAreLogged(s: State, source: Side, mtime: nat, atime: nat)
    requires s.readAhead == 0
    ensures FromSource(s, source, "T" + Decimal(mtime) + " 0 " + Decimal(atime) + " 0\n")
            == s.(log := s.log + [Times(mtime, atime)])
  {
    hide Decimal, ScanTimes;
    var text := "T" + Decimal(mtime) + " 0 " + Decimal(atime) + " 0\n";
    assert text[1..] == Decimal(mtime) + (" 0 " + (Decimal(atime) + " 0\n"));
    ScanTimesOf(mtime, atime);
    TimesCommand(s, text);
  }

  lemma TimesCommand(s: State, text: string)
    requires text != [] && text[0] == 'T' && ScanTimes(text[1..]).Match?
    ensures Commands(s, text) == s.(log := s.log + [Times(ScanTimes(text[1..]).value.0, ScanTimes(text[1..]).value.1)])
  {
    assert Commands(s, text) == Command(s, text).0;
  }

  lemma ScanTimesOf(mtime: nat, atime: nat)
    ensures ScanTimes(Decimal(mtime) + (" 0 " + (Decimal(atime) + " 0\n"))) == Match((mtime, atime), " 0\n")
  {
    hide Decimal, ScanLong;
    var last := Decimal(atime) + " 0\n";
    var tail := " 0 " + last;
    NumberOf(mtime, tail);
    SecondNumber(last);
    ScanLongOf(atime, " 0\n");
    assert " " + Decimal(atime) + " 0\n" == " " + last;
  }

  lemma SecondNumber(last: string)
    ensures var t := SkipSpace(" 0 " + last); t != [] && t[0] == '0' && t[1..] == " " + last
  {
    assert (" 0 " + last)[1..] == "0 " + last;
    assert SkipSpace(" 0 " + last) == "0 " + last;
  }

  lemma NumberOf(n: nat, rest: string)
    requires rest != [] && IsSpace(rest[0])
    ensures ScanLong(Decimal(n) + rest) == Match(n, rest)
  {
    var d := Decimal(n);
    assert SkipSpace(d + rest) == d + rest;
    DigitRunOf(d, rest);
    assert (d + rest)[..|d|] == d && (d + rest)[|d|..] == rest;
    ValueOfDecimal(n);
  }

  /** A message of the source is logged with its level and its text. */
  lemma MessageIsLogged(s: State, source: Side, level: char, text: string)
    requires s.readAhead == 0 && (level == '\U{01}' || level == '\U{02}') && 0 < |text| <= 1023 && IsLine(text)
    ensures FromSource(s, source, [level] + text + "\n") == s.(log := s.log + [SourceMessage(level as int, text)])
  {
    var data := [level] + text + "\n";
    assert data[1..] == text + "\n";
    LineLengthOf(text, 1023);
    assert data[1..][..|text|] == text;
    assert Commands(s, data) == Command(s, data).0;
  }

  lemma {:induction false} LineLengthOf(text: string, max: nat)
    requires |text| <= max && IsLine(text)
    ensures LineLength(text + "\n", max) == |text|
  {
    if text == "" {
      assert text + "\n" == "\n";
    } else {
      LineLengthOf(text[1..], max - 1);
      assert (text + "\n")[1..] == text[1..] + "\n";
    }
  }

  // ----- Replies of the sink -------------------------------------------------------

  const OK: Packet := Sink([NUL])

  function WithoutOks(packets: seq<Packet>): seq<Packet> {
    if packets == [] then []
    else if packets[0] == OK then WithoutOks(packets[1..])
    else [packets[0]] + WithoutOks(packets[1..])
  }

  /** Acknowledgements of the sink may be interleaved anywhere without changing what is inspected. */
  lemma {:induction false} OksAreInvisible(s: State, source: Side, packets: seq<Packet>)
    requires forall p :: p in packets ==> p.Valid()
    ensures forall p :: p in WithoutOks(packets) ==> p.Valid()
    ensures InspectAll(s, source, packets) == InspectAll(s, source, WithoutOks(packets))
    decreases |packets|
  {
    if packets != [] {
      OksAreInvisible(Inspect(s, source, packets[0]), source, packets[1..]);
      if packets[0] != OK {
        assert WithoutOks(packets)[1..] == WithoutOks(packets[1..]);
      }
    }
  }

  /** A warning or fatal reply cancels the file whose content was expected: nothing of it is counted
      and the next packet is read as commands again. */
  lemma RefusalCancelsFile(s: State, source: Side, data: string, next: string)
    requires data != [] && (data[0] == '\U{01}' || data[0] == '\U{02}')
    ensures var t := FromSink(s, data);
            && FromSource(t, source, next) == Commands(t, next)
            && t.report == s.report.(mayCount := false)
            && |t.log| == |s.log| + 1
  {}

  /** It is logged with its level and its text, and is all that is changed with the file. */
  lemma RefusalIsLogged(s: State, level: char, text: string)
    requires (level == '\U{01}' || level == '\U{02}') && IsLine(text)
    ensures FromSink(s, [level] + text + "\n")
            == s.(log := s.log + [SinkReply(level as int, text)], readAhead := 0, report := s.report.(mayCount := false))
  {
    var data := [level] + text + "\n";
    assert data[1..] == text + "\n";
    NewlineOf(text);
    assert data[1..][..|text|] == text;
  }

  lemma {:induction false} NewlineOf(text: string)
    requires IsLine(text)
    ensures FirstNewline(text + "\n") == |text|
  {
    if text == "" {
      assert text + "\n" == "\n";
    } else {
      NewlineOf(text[1..]);
      assert (text + "\n")[1..] == text[1..] + "\n";
    }
  }

  // ----- The code ------------------------------------------------------------------

/** The counters of the session, one object for all its channels. */
  class SessionReport {
    var report: Report

    constructor ()
      ensures report == Report(false, 0, 0, 0, 0)
    {
      report := Report(false, 0, 0, 0, 0);
    }
  }

    class Channel {
    const source: Side
    const session: SessionReport
    var scpReadAhead: int
    var scpDirName: string
    var scpDirDepth: int
    var log: seq<LogLine>

    ghost function View(): State
      reads this, session
    {
      State(scpReadAhead, scpDirName, scpDirDepth, session.report, log)
    }

    constructor (source: Side, dirName: string, session: SessionReport)
      ensures View() == State(0, dirName, 0, session.report, [])
      ensures this.source == source && this.session == session
    {
      this.source, this.session := source, session;
      scpReadAhead, scpDirName, scpDirDepth, log := 0, dirName, 0, [];
    }

    /** The command loop: a pointer walks over the packet. */
    method ReadMessages(data: string)
      modifies this, session
      ensures View() == Commands(old(View()), data)
    {
      var pos := 0;
      while pos < |data|
        invariant 0 <= pos
        invariant Commands(old(View()), data) == if pos <= |data| then Commands(View(), data[pos..]) else View()
      {
        var cmd := data[pos];
        var args := data[pos + 1..];
        ghost var rest := data[pos..];
        assert rest[0] == cmd && rest[1..] == args;
        ghost var before := View();
        ghost var start := pos;
        pos := pos + 1;
        match cmd {
          case 'C' =>
            match ScanHeader(args) {
              case Match(h, _) =>
                log := log + [CopyFile(Join(scpDirName, h.name), h.mode, h.length)];
                scpReadAhead := h.length;
                session.report := session.report.(mayCount := true);
                pos := |data|;
              case NoMatch =>
            }
          case 'D' =>
            match ScanHeader(args) {
              case Match(h, _) =>
                scpDirName := Join(scpDirName, h.name);
                log := log + [EnterDirectory(scpDirName, h.mode, h.length)];
              case NoMatch =>
            }
            scpDirDepth := scpDirDepth + 1;
            pos := |data|;
          case 'E' =>
            scpDirDepth := scpDirDepth - 1;
            var slash := LastIndex(scpDirName, '/');
            if slash > 0 {
              scpDirName := scpDirName[..slash];
            }
            log := log + [LeaveDirectory];
            pos := |data|;
          case 'T' =>
            match ScanTimes(args) {
              case Match(times, _) =>
                log := log + [Times(times.0, times.1)];
              case NoMatch =>
            }
            pos := |data|;
          case _ =>
            if Signed(cmd) > 0 {
              var n := LineLength(args, 1023);
              if n > 0 {
                log := log + [SourceMessage(Signed(cmd), args[..n])];
                pos := pos + n + 1;
              }
            }
        }
        assert View() == Command(before, rest).0;
        assert pos == start + Command(before, rest).1;
        assert pos <= |data| ==> rest[Command(before, rest).1..] == data[pos..];
      }
    }

    method CountFile()
      modifies session
      ensures session.report == old(session.report).Count(source, scpReadAhead)
    {
      var r := session.report;
      if r.mayCount {
        session.report := r.(mayCount := false);
        r := session.report;
        session.report := if source.Client? then r.(filesWritten := r.filesWritten + 1, bytesWritten := r.bytesWritten + scpReadAhead)
                          else r.(filesRead := r.filesRead + 1, bytesRead := r.bytesRead + scpReadAhead);
      }
    }

    method SourceData(packet: string)
      modifies this, session
      ensures View() == FromSource(old(View()), source, packet)
    {
      var data := packet;
      if scpReadAhead > 0 {
        CountFile();
        if |data| > scpReadAhead + 1 {
          data := data[scpReadAhead..];
          scpReadAhead := 0;
          ReadMessages(data);
        } else {
          scpReadAhead := if scpReadAhead > |data| then scpReadAhead - |data| else 0;
        }
      } else {
        ReadMessages(data);
      }
    }

    method SinkData(data: string)
      requires data != []
      modifies this, session
      ensures View() == FromSink(old(View()), data)
    {
      var reply := Signed(data[0]);
      if reply < 3 {
        if reply > 0 {
          var end := FirstNewline(data[1..]);
          log := log + [SinkReply(reply, if end >= 0 then data[1..][..end] else "")];
          scpReadAhead := 0;
          session.report := session.report.(mayCount := false);
        }
      }
    }

    method InspectData(p: Packet)
      requires p.Valid()
      modifies this, session
      ensures View() == Inspect(old(View()), source, p)
    {
      if p.Source? {
        SourceData(p.data);
      } else {
        SinkData(p.data);
      }
    }
  }
}
