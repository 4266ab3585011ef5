/** The SCP inspector over a whole session: read-ahead, directory and log belong to a channel, but the
    flag that lets a file be counted is one for all channels. */
module ScpSession {
  import opened Text
  import opened Scp

  // ----- Sessions of several channels ----------------------------------------------

  /** What belongs to one channel. */
  datatype ChannelState = ChannelState(source: Side, readAhead: int, dirName: string, dirDepth: int, log: seq<LogLine>)

  /** A packet names its channel. */
  datatype Step = Step(cid: nat, packet: Packet)

  datatype Session = Session(channels: map<nat, ChannelState>, report: Report) {
    /** The channel as the inspector sees it. */
    function At(cid: nat): State
      requires cid in channels
    {
      var c := channels[cid];
      State(c.readAhead, c.dirName, c.dirDepth, report, c.log)
    }

    function With(cid: nat, s: State): Session
      requires cid in channels
    {
      Session(channels[cid := ChannelState(channels[cid].source, s.readAhead, s.dirName, s.dirDepth, s.log)], s.report)
    }
  }

  predicate Playable(w: Session, steps: seq<Step>) {
    forall i :: 0 <= i < |steps| ==> steps[i].cid in w.channels && steps[i].packet.Valid()
  }

  function Next(w: Session, step: Step): (v: Session)
    requires step.cid in w.channels && step.packet.Valid()
    ensures v.channels.Keys == w.channels.Keys
    ensures forall c :: c in w.channels ==> v.channels[c].source == w.channels[c].source
    ensures forall c :: c in w.channels && c != step.cid ==> v.channels[c] == w.channels[c]
  {
    w.With(step.cid, Inspect(w.At(step.cid), w.channels[step.cid].source, step.packet))
  }

  function Run(w: Session, steps: seq<Step>): (v: Session)
    requires Playable(w, steps)
    ensures v.channels.Keys == w.channels.Keys
    decreases |steps|
  {
    if steps == [] then w else Run(Next(w, steps[0]), steps[1..])
  }

  /** The packets of one channel. */
  function Of(steps: seq<Step>, cid: nat): seq<Packet> {
    if steps == [] then []
    else (if steps[0].cid == cid then [steps[0].packet] else []) + Of(steps[1..], cid)
  }

  lemma {:induction false} OfIsValid(w: Session, steps: seq<Step>, cid: nat)
    requires Playable(w, steps)
    ensures forall p :: p in Of(steps, cid) ==> p.Valid()
  {
    if steps != [] {
      OfIsValid(w, steps[1..], cid);
    }
  }

  // ----- A packet's two effects ----------------------------------------------------

  predicate SameChannel(s: State, t: State) {
    s == t.(report := s.report)
  }

  /** A file header is among the commands. */
  predicate Raises(s: State, rest: string)
    decreases |rest|
  {
    rest != [] &&
    ((rest[0] == 'C' && ScanHeader(rest[1..]).Match?) ||
     var (t, n) := Command(s, rest); n < |rest| && Raises(t, rest[n..]))
  }

  lemma CommandSplit(s: State, t: State, rest: string)
    requires SameChannel(s, t) && rest != []
    ensures Command(s, rest).1 == Command(t, rest).1 && SameChannel(Command(s, rest).0, Command(t, rest).0)
    ensures var header := rest[0] == 'C' && ScanHeader(rest[1..]).Match?;
            && Command(s, rest).0.report == (if header then s.report.(mayCount := true) else s.report)
            && (header ==> Command(s, rest).1 == |rest|)
  {
    hide ScanHeader, ScanTimes, LineLength;
  }

  lemma {:induction false} CommandsSplit(s: State, t: State, rest: string)
    requires SameChannel(s, t)
    ensures SameChannel(Commands(s, rest), Commands(t, rest)) && Raises(s, rest) == Raises(t, rest)
    ensures Commands(s, rest).report == if Raises(s, rest) then s.report.(mayCount := true) else s.report
    decreases |rest|
  {
    hide Command;
    if rest != [] {
      CommandSplit(s, t, rest);
      var (u, n) := Command(s, rest);
      if n < |rest| {
        CommandsSplit(u, Command(t, rest).0, rest[n..]);
      }
    }
  }

  /** What a packet does to the session's flag. */
  datatype Effect = Keep | Raise | Lower

  predicate IsContent(s: State, p: Packet) {
    p.Source? && s.readAhead > 0
  }

  /** Content lowers the flag, counted or not; so does a refusal. A file header raises it. */
  function EffectOf(s: State, p: Packet): Effect
    requires p.Valid()
  {
    match p
    case Source(data) =>
      if s.readAhead > 0 then
        if |data| > s.readAhead + 1 && Raises(s.(readAhead := 0), data[s.readAhead..]) then Raise else Lower
      else if Raises(s, data) then Raise else Keep
    case Sink(data) => if 0 < Signed(data[0]) < 3 then Lower else Keep
  }

  function Flag(effect: Effect, before: bool): bool {
    match effect
    case Keep => before
    case Raise => true
    case Lower => false
  }

  /** A number of files and bytes more. */
  function Added(r: Report, source: Side, files: nat, bytes: int): Report {
    if source.Client? then r.(filesWritten := r.filesWritten + files, bytesWritten := r.bytesWritten + bytes)
    else r.(filesRead := r.filesRead + files, bytesRead := r.bytesRead + bytes)
  }

  /** Of the report a packet reads nothing but the flag, and only to decide whether to count. */
  lemma InspectSplit(s: State, t: State, source: Side, p: Packet)
    requires SameChannel(s, t) && p.Valid()
    ensures SameChannel(Inspect(s, source, p), Inspect(t, source, p)) && EffectOf(s, p) == EffectOf(t, p)
    ensures var counts := IsContent(s, p) && s.report.mayCount;
            Inspect(s, source, p).report
            == Added(s.report, source, if counts then 1 else 0, if counts then s.readAhead else 0)
               .(mayCount := Flag(EffectOf(s, p), s.report.mayCount))
  {
    hide Commands, Raises;
    if p.Source? {
      if s.readAhead > 0 {
        var u := s.(report := s.report.Count(source, s.readAhead), readAhead := 0);
        var v := t.(report := t.report.Count(source, t.readAhead), readAhead := 0);
        if |p.data| > s.readAhead + 1 {
          CommandsSplit(u, v, p.data[s.readAhead..]);
          CommandsSplit(u, s.(readAhead := 0), p.data[s.readAhead..]);
          CommandsSplit(v, t.(readAhead := 0), p.data[s.readAhead..]);
        }
      } else {
        CommandsSplit(s, t, p.data);
      }
    }
  }

  // ----- Channels do not disturb each other's log ----------------------------------

  /** Under any interleaving every channel's read-ahead, directory, depth and log are what its own packets
      alone make of them. */
  lemma {:induction false} ChannelsAreIndependent(w: Session, steps: seq<Step>, cid: nat, u: State)
    requires Playable(w, steps) && cid in w.channels && SameChannel(u, w.At(cid))
    ensures forall p :: p in Of(steps, cid) ==> p.Valid()
    ensures SameChannel(InspectAll(u, w.channels[cid].source, Of(steps, cid)), Run(w, steps).At(cid))
    ensures Run(w, steps).channels[cid].source == w.channels[cid].source
    decreases |steps|
  {
    hide Inspect;
    OfIsValid(w, steps, cid);
    if steps != [] {
      var v, source := Next(w, steps[0]), w.channels[cid].source;
      if steps[0].cid == cid {
        InspectSplit(u, w.At(cid), source, steps[0].packet);
        assert Of(steps, cid)[1..] == Of(steps[1..], cid);
        ChannelsAreIndependent(v, steps[1..], cid, Inspect(u, source, steps[0].packet));
      } else {
        assert Of(steps, cid) == Of(steps[1..], cid);
        ChannelsAreIndependent(v, steps[1..], cid, u);
      }
    }
  }

  /** So a tree is logged and skipped in full, and name and depth come back, whatever goes on elsewhere. */
  lemma TreeIsLogged(w: Session, steps: seq<Step>, cid: nat, entries: seq<Entry>)
    requires Playable(w, steps) && cid in w.channels && w.channels[cid].readAhead == 0 && w.channels[cid].dirName != ""
    requires (forall x :: x in entries ==> WellFormed(x)) && WithoutOks(Of(steps, cid)) == AllPackets(entries)
    ensures var c := w.channels[cid];
            Run(w, steps).channels[cid] == c.(log := c.log + AllExpected(c.dirName, entries))
  {
    var c := w.channels[cid];
    ChannelsAreIndependent(w, steps, cid, w.At(cid));
    OksAreInvisible(w.At(cid), c.source, Of(steps, cid));
    AllTransferred(w.At(cid), c.source, entries);
  }

  // ----- What is counted -----------------------------------------------------------

  /** What a content packet finds: the flag, and how much content was missing. */
  datatype Look = Look(flag: bool, missing: int)

  function LookOf(s: State, p: Packet): seq<Look> {
    if IsContent(s, p) then [Look(s.report.mayCount, s.readAhead)] else []
  }

  function Looks(w: Session, steps: seq<Step>, cid: nat): seq<Look>
    requires Playable(w, steps) && cid in w.channels
    decreases |steps|
  {
    if steps == [] then []
    else (if steps[0].cid == cid then LookOf(w.At(cid), steps[0].packet) else [])
         + Looks(Next(w, steps[0]), steps[1..], cid)
  }

  function FilesIn(looks: seq<Look>): nat {
    if looks == [] then 0 else (if looks[0].flag then 1 else 0) + FilesIn(looks[1..])
  }

  function BytesIn(looks: seq<Look>): int {
    if looks == [] then 0 else (if looks[0].flag then looks[0].missing else 0) + BytesIn(looks[1..])
  }

  lemma LooksLater(w: Session, steps: seq<Step>, cid: nat)
    requires Playable(w, steps) && cid in w.channels && steps != []
    ensures var looks, later := Looks(w, steps, cid), Looks(Next(w, steps[0]), steps[1..], cid);
            var counts := steps[0].cid == cid && IsContent(w.At(cid), steps[0].packet) && w.report.mayCount;
            && FilesIn(looks) == FilesIn(later) + (if counts then 1 else 0)
            && BytesIn(looks) == BytesIn(later) + (if counts then w.channels[cid].readAhead else 0)
  {
    var looks, later := Looks(w, steps, cid), Looks(Next(w, steps[0]), steps[1..], cid);
    if steps[0].cid == cid && IsContent(w.At(cid), steps[0].packet) {
      assert looks[1..] == later;
    } else {
      assert looks == later;
    }
  }

  /** The report with what each of the channels counted added to it. */
  function Totals(r: Report, w: Session, steps: seq<Step>, cids: seq<nat>): Report
    requires Playable(w, steps) && forall c :: c in cids ==> c in w.channels
  {
    if cids == [] then r
    else var looks := Looks(w, steps, cids[0]);
         Added(Totals(r, w, steps, cids[1..]), w.channels[cids[0]].source, FilesIn(looks), BytesIn(looks))
  }

  predicate Distinct(cids: seq<nat>) {
    forall i, j :: 0 <= i < j < |cids| ==> cids[i] != cids[j]
  }

  lemma AddedTwice(r: Report, s: Side, files: nat, bytes: int, t: Side, moreFiles: nat, moreBytes: int)
    ensures Added(Added(r, s, files, bytes), t, moreFiles, moreBytes) == Added(Added(r, t, moreFiles, moreBytes), s, files, bytes)
    ensures s == t ==> Added(Added(r, s, files, bytes), t, moreFiles, moreBytes) == Added(r, s, files + moreFiles, bytes + moreBytes)
  {}

  lemma NothingAdded(r: Report, s: Side)
    ensures Added(r, s, 0, 0) == r
  {}

  lemma {:induction false} TotalsAdd(r: Report, w: Session, steps: seq<Step>, cids: seq<nat>, source: Side, files: nat, bytes: int)
    requires Playable(w, steps) && forall c :: c in cids ==> c in w.channels
    ensures Totals(Added(r, source, files, bytes), w, steps, cids) == Added(Totals(r, w, steps, cids), source, files, bytes)
  {
    hide Added, Looks, FilesIn, BytesIn;
    if cids != [] {
      var looks := Looks(w, steps, cids[0]);
      TotalsAdd(r, w, steps, cids[1..], source, files, bytes);
      AddedTwice(Totals(r, w, steps, cids[1..]), source, files, bytes,
                 w.channels[cids[0]].source, FilesIn(looks), BytesIn(looks));
    }
  }

  lemma {:induction false} TotalsLater(r: Report, w: Session, steps: seq<Step>, cids: seq<nat>)
    requires Playable(w, steps) && steps != [] && Distinct(cids) && forall c :: c in cids ==> c in w.channels
    ensures var later := Totals(r, Next(w, steps[0]), steps[1..], cids);
            var c := steps[0].cid;
            var counts := c in cids && IsContent(w.At(c), steps[0].packet) && w.report.mayCount;
            Totals(r, w, steps, cids)
            == Added(later, w.channels[c].source, if counts then 1 else 0, if counts then w.channels[c].readAhead else 0)
  {
    hide Added, Looks, FilesIn, BytesIn, Next, IsContent;
    var v, c := Next(w, steps[0]), steps[0].cid;
    NothingAdded(r, w.channels[c].source);
    if cids != [] {
      TotalsLater(r, w, steps, cids[1..]);
      LooksLater(w, steps, cids[0]);
      var rest, looks := Totals(r, v, steps[1..], cids[1..]), Looks(v, steps[1..], cids[0]);
      var counts := IsContent(w.At(c), steps[0].packet) && w.report.mayCount;
      var files, bytes := if counts then 1 else 0, if counts then w.channels[c].readAhead else 0;
      AddedTwice(rest, w.channels[cids[0]].source, FilesIn(looks), BytesIn(looks), w.channels[c].source, files, bytes);
      NothingAdded(rest, w.channels[c].source);
      NothingAdded(Totals(r, v, steps[1..], cids), w.channels[c].source);
      assert cids[0] !in cids[1..];
    }
  }

  /** Conservation: under any interleaving the report grows by what the channels count. */
  lemma {:induction false} ReportIsSum(w: Session, steps: seq<Step>, cids: seq<nat>, r: Report)
    requires Playable(w, steps) && Distinct(cids) && (forall c :: c in cids <==> c in w.channels)
    requires r.(mayCount := w.report.mayCount) == w.report
    ensures Run(w, steps).report == Totals(r, w, steps, cids).(mayCount := Run(w, steps).report.mayCount)
    decreases |steps|
  {
    if steps == [] {
      NothingCounted(r, w, cids);
    } else {
      var c := steps[0].cid;
      var v, source := Next(w, steps[0]), w.channels[c].source;
      var counts := IsContent(w.At(c), steps[0].packet) && w.report.mayCount;
      var files, bytes := if counts then 1 else 0, if counts then w.channels[c].readAhead else 0;
      InspectSplit(w.At(c), w.At(c), source, steps[0].packet);
      ReportIsSum(v, steps[1..], cids, Added(r, source, files, bytes));
      TotalsAdd(r, v, steps[1..], cids, source, files, bytes);
      TotalsLater(r, w, steps, cids);
    }
  }

  lemma {:induction false} NothingCounted(r: Report, w: Session, cids: seq<nat>)
    requires forall c :: c in cids ==> c in w.channels
    ensures Totals(r, w, [], cids) == r
  {
    if cids != [] {
      NothingCounted(r, w, cids[1..]);
    }
  }

  // ----- One file among other channels ---------------------------------------------

  /** For every content packet of a channel, what the other channels did last to the flag since the
      content packet, or the header, before it. */
  function Disturbances(w: Session, steps: seq<Step>, cid: nat, since: Effect): seq<Effect>
    requires Playable(w, steps) && cid in w.channels
    decreases |steps|
  {
    if steps == [] then []
    else
      var s, p, v := w.At(steps[0].cid), steps[0].packet, Next(w, steps[0]);
      if steps[0].cid == cid then
        if IsContent(s, p) then [since] + Disturbances(v, steps[1..], cid, Keep)
        else Disturbances(v, steps[1..], cid, since)
      else Disturbances(v, steps[1..], cid, if EffectOf(s, p) == Keep then since else EffectOf(s, p))
  }

  /** What the content packets of one file find: the first of them the flag as the header left it, the
      others as their predecessor did - unless another channel came between. */
  ghost predicate FileLooks(looks: seq<Look>, others: seq<Effect>, up: bool, missing: int) {
    && |looks| == |others| && (missing > 0 <==> looks != [])
    && (looks != [] ==> looks[0] == Look(Flag(others[0], up), missing))
    && (forall k :: 0 <= k < |looks| ==> 0 < looks[k].missing <= missing)
    && (forall k :: 0 < k < |looks| ==> looks[k].flag == (others[k] == Raise))
  }

  /** The packets of a file's content and its NUL, of which `missing` bytes of content are still to come. */
  ghost predicate IsRest(chunks: seq<string>, missing: int) {
    && 0 <= missing && |Concat(chunks)| <= missing + 1 && (missing > 0 ==> |Concat(chunks)| == missing + 1)
    && forall k :: missing <= k < |Concat(chunks)| ==> Concat(chunks)[k] == NUL
  }

  lemma {:induction false} NulsRaiseNothing(s: State, data: string)
    requires forall k :: 0 <= k < |data| ==> data[k] == NUL
    ensures !Raises(s, data) && Commands(s, data) == s
    decreases |data|
  {
    if data != [] {
      NulsRaiseNothing(s, data[1..]);
    }
  }

  /** One packet of a file's content: what it skips, and that it is lowered in the end. */
  lemma ContentPacket(s: State, source: Side, chunks: seq<string>)
    requires chunks != [] && IsRest(chunks, s.readAhead)
    ensures var c, t := chunks[0], Inspect(s, source, Source(chunks[0]));
            && t.readAhead == (if |c| < s.readAhead then s.readAhead - |c| else 0)
            && IsRest(chunks[1..], t.readAhead)
            && EffectOf(s, Source(c)) == (if s.readAhead > 0 then Lower else Keep)
            && (s.readAhead == 0 ==> t == s)
  {
    var c, rest := chunks[0], chunks[1..];
    assert Concat(chunks) == c + Concat(rest);
    assert forall k :: 0 <= k < |c| ==> c[k] == Concat(chunks)[k];
    assert forall k :: 0 <= k < |Concat(rest)| ==> Concat(rest)[k] == Concat(chunks)[k + |c|];
    if s.readAhead == 0 {
      NulsRaiseNothing(s, c);
    }
  }

  lemma OneLookMore(looks: seq<Look>, others: seq<Effect>, since: Effect, up: bool, missing: int, left: int)
    requires FileLooks(looks, others, false, left) && 0 <= left <= missing && missing > 0
    ensures FileLooks([Look(Flag(since, up), missing)] + looks, [since] + others, up, missing)
    ensures left < missing ==> Shrinking([Look(Flag(since, up), missing)] + looks, missing)
  {}

  lemma OthersStep(w: Session, steps: seq<Step>, cid: nat, since: Effect)
    requires Playable(w, steps) && cid in w.channels && steps != [] && steps[0].cid != cid
    ensures var v, e := Next(w, steps[0]), EffectOf(w.At(steps[0].cid), steps[0].packet);
            && Looks(w, steps, cid) == Looks(v, steps[1..], cid)
            && Disturbances(w, steps, cid, since) == Disturbances(v, steps[1..], cid, if e == Keep then since else e)
            && Of(steps, cid) == Of(steps[1..], cid)
            && v.report.mayCount == Flag(e, w.report.mayCount)
  {
    InspectSplit(w.At(steps[0].cid), w.At(steps[0].cid), w.channels[steps[0].cid].source, steps[0].packet);
  }

  lemma OwnStep(w: Session, steps: seq<Step>, cid: nat, since: Effect)
    requires Playable(w, steps) && cid in w.channels && steps != [] && steps[0].cid == cid
    ensures var s, p, v := w.At(cid), steps[0].packet, Next(w, steps[0]);
            && Looks(w, steps, cid)
               == (if IsContent(s, p) then [Look(w.report.mayCount, s.readAhead)] + Looks(v, steps[1..], cid)
                   else Looks(v, steps[1..], cid))
            && Disturbances(w, steps, cid, since)
               == (if IsContent(s, p) then [since] + Disturbances(v, steps[1..], cid, Keep)
                   else Disturbances(v, steps[1..], cid, since))
            && Of(steps, cid) == [p] + Of(steps[1..], cid)
            && v.At(cid) == Inspect(s, w.channels[cid].source, p)
            && v.report.mayCount == Flag(EffectOf(s, p), w.report.mayCount)
  {
    InspectSplit(w.At(cid), w.At(cid), w.channels[cid].source, steps[0].packet);
  }

  ghost predicate Shrinking(looks: seq<Look>, missing: int) {
    forall k :: 0 < k < |looks| ==> looks[k].missing < missing
  }

  lemma {:induction false} ContentLooks(w: Session, steps: seq<Step>, cid: nat, chunks: seq<string>, since: Effect, up: bool)
    requires Playable(w, steps) && cid in w.channels && WithoutOks(Of(steps, cid)) == Sources(chunks)
    requires IsRest(chunks, w.channels[cid].readAhead) && w.report.mayCount == Flag(since, up)
    ensures FileLooks(Looks(w, steps, cid), Disturbances(w, steps, cid, since), up, w.channels[cid].readAhead)
    ensures "" !in chunks ==> Shrinking(Looks(w, steps, cid), w.channels[cid].readAhead)
    decreases |steps|
  {
    hide Looks, Disturbances, Inspect, EffectOf, Next, IsRest, FileLooks, Shrinking, WithoutOks;
    if steps == [] {
      NoSteps(w, cid, chunks, since, up);
    } else if steps[0].cid != cid {
      OthersStep(w, steps, cid, since);
      var e := EffectOf(w.At(steps[0].cid), steps[0].packet);
      ContentLooks(Next(w, steps[0]), steps[1..], cid, chunks, if e == Keep then since else e, up);
    } else {
      var p, v := steps[0].packet, Next(w, steps[0]);
      OwnStep(w, steps, cid, since);
      if p == OK {
        assert Of(steps, cid)[1..] == Of(steps[1..], cid);
        assert WithoutOks(Of(steps, cid)) == WithoutOks(Of(steps[1..], cid)) by { SkipOk(Of(steps, cid)); }
        OkKeeps(w.At(cid), w.channels[cid].source);
        ContentLooks(v, steps[1..], cid, chunks, since, up);
      } else {
        FirstChunk(Of(steps, cid), chunks);
        assert Of(steps, cid)[1..] == Of(steps[1..], cid);
        ContentPacket(w.At(cid), w.channels[cid].source, chunks);
        AtMost(chunks, w.channels[cid].readAhead);
        if w.channels[cid].readAhead > 0 {
          ContentLooks(v, steps[1..], cid, chunks[1..], Keep, false);
          OneLookMore(Looks(v, steps[1..], cid), Disturbances(v, steps[1..], cid, Keep), since, up,
                      w.channels[cid].readAhead, v.channels[cid].readAhead);
        } else {
          ContentLooks(v, steps[1..], cid, chunks[1..], since, up);
        }
      }
    }
  }

  lemma NoSteps(w: Session, cid: nat, chunks: seq<string>, since: Effect, up: bool)
    requires cid in w.channels && WithoutOks(Of([], cid)) == Sources(chunks) && IsRest(chunks, w.channels[cid].readAhead)
    ensures FileLooks(Looks(w, [], cid), Disturbances(w, [], cid, since), up, w.channels[cid].readAhead)
    ensures Shrinking(Looks(w, [], cid), w.channels[cid].readAhead)
  {
    assert |Sources(chunks)| == 0;
  }

  lemma AtMost(chunks: seq<string>, missing: int)
    requires IsRest(chunks, missing)
    ensures missing >= 0
  {}

  lemma OkKeeps(s: State, source: Side)
    ensures Inspect(s, source, OK) == s && EffectOf(s, OK) == Keep && !IsContent(s, OK)
  {}

  lemma SkipOk(packets: seq<Packet>)
    requires packets != [] && packets[0] == OK
    ensures WithoutOks(packets) == WithoutOks(packets[1..])
  {}

  lemma FirstChunk(packets: seq<Packet>, chunks: seq<string>)
    requires packets != [] && packets[0] != OK && WithoutOks(packets) == Sources(chunks)
    ensures chunks != [] && packets[0] == Source(chunks[0]) && WithoutOks(packets[1..]) == Sources(chunks[1..])
  {
    assert Sources(chunks)[0] == packets[0];
    assert WithoutOks(packets)[1..] == WithoutOks(packets[1..]);
    assert Sources(chunks)[1..] == Sources(chunks[1..]);
  }

  ghost predicate CountedOnce(looks: seq<Look>, length: int) {
    FilesIn(looks) == 1 && BytesIn(looks) == length
  }

  lemma {:induction false} NoneUp(looks: seq<Look>)
    ensures FilesIn(looks) == 0 <==> forall k :: 0 <= k < |looks| ==> !looks[k].flag
    ensures FilesIn(looks) == 0 ==> BytesIn(looks) == 0
  {
    if looks != [] {
      NoneUp(looks[1..]);
      assert forall k :: 0 <= k < |looks[1..]| ==> looks[1..][k] == looks[k + 1];
      assert forall k :: 0 < k < |looks| ==> looks[k] == looks[1..][k - 1];
    }
  }

  ghost predicate OnlyUp(looks: seq<Look>, k: int) {
    0 <= k < |looks| && looks[k].flag && forall j :: 0 <= j < |looks| && j != k ==> !looks[j].flag
  }

  /** A single look that finds the flag up counts what it finds missing. */
  lemma {:induction false} OneUp(looks: seq<Look>)
    ensures FilesIn(looks) == 1 <==> exists k :: OnlyUp(looks, k)
    ensures forall k :: OnlyUp(looks, k) ==> BytesIn(looks) == looks[k].missing
  {
    if looks != [] {
      var rest := looks[1..];
      NoneUp(rest);
      OneUp(rest);
      assert forall k :: 0 < k < |looks| ==> looks[k] == rest[k - 1];
      forall k | OnlyUp(looks, k)
        ensures FilesIn(looks) == 1 && BytesIn(looks) == looks[k].missing
      {
        if k > 0 {
          assert OnlyUp(rest, k - 1);
        } else {
          assert forall j :: 0 <= j < |rest| ==> rest[j] == looks[j + 1];
        }
      }
      if FilesIn(looks) == 1 {
        if looks[0].flag {
          assert OnlyUp(looks, 0);
        } else {
          var k :| OnlyUp(rest, k);
          assert OnlyUp(looks, k + 1);
        }
      }
    }
  }

  /** The packets of a file on one channel, anything going on on the others: it is counted once with its
      full length exactly when a single one of its content packets finds the flag up, with no content
      before it. Where no packet is empty that is: the flag is up at the first and down at the others -
      what the others did last to the flag is not to lower it between header and first content packet,
      and not to raise it between any two content packets. */
  lemma FileCountsIff(w: Session, steps: seq<Step>, cid: nat, e: Entry)
    requires e.File? && WellFormed(e) && e.content != []
    requires Playable(w, steps) && cid in w.channels && w.channels[cid].readAhead == 0
    requires steps != [] && steps[0] == Step(cid, FileHeader(e)) && WithoutOks(Of(steps[1..], cid)) == Sources(e.chunks)
    ensures var looks := Looks(w, steps, cid);
            var others := Disturbances(Next(w, steps[0]), steps[1..], cid, Keep);
            && FileLooks(looks, others, true, |e.content|)
            && (CountedOnce(looks, |e.content|) <==> exists k :: OnlyUp(looks, k) && looks[k].missing == |e.content|)
            && ("" !in e.chunks ==>
                  && (CountedOnce(looks, |e.content|) <==> looks[0].flag && forall k :: 0 < k < |looks| ==> !looks[k].flag)
                  && (CountedOnce(looks, |e.content|)
                      <==> others[0] != Lower && forall k :: 0 < k < |others| ==> others[k] != Raise))
  {
    var v, source := Next(w, steps[0]), w.channels[cid].source;
    HeaderIsRead(w.At(cid), source, e);
    OwnStep(w, steps, cid, Keep);
    ContentLooks(v, steps[1..], cid, e.chunks, Keep, true);
    hide Disturbances, Inspect, Next, FileHeader;
    var looks := Looks(w, steps, cid);
    assert looks == Looks(v, steps[1..], cid);
    FileLooksIff(looks, Disturbances(v, steps[1..], cid, Keep), |e.content|, "" !in e.chunks);
  }

  function FileHeader(e: Entry): (p: Packet)
    requires e.File?
    ensures p.Source? && [p] + Sources(e.chunks) == Packets(e)
  {
    Source(HeaderText('C', e.mode, |e.content|, e.name))
  }

  lemma HeaderIsRead(s: State, source: Side, e: Entry)
    requires e.File? && WellFormed(e) && s.readAhead == 0
    ensures var t := Inspect(s, source, FileHeader(e));
            && t.readAhead == |e.content| && t.report == s.report.(mayCount := true)
            && !IsContent(s, FileHeader(e)) && IsRest(e.chunks, |e.content|)
  {
    var header := FileHeader(e).data;
    ScanHeaderOf('C', e.mode, |e.content|, e.name);
    assert Commands(s, header) == Command(s, header).0;
  }

  lemma FileLooksIff(looks: seq<Look>, others: seq<Effect>, length: int, shrinking: bool)
    requires FileLooks(looks, others, true, length) && length > 0 && (shrinking ==> Shrinking(looks, length))
    ensures CountedOnce(looks, length) <==> exists k :: OnlyUp(looks, k) && looks[k].missing == length
    ensures shrinking ==> (CountedOnce(looks, length) <==> OnlyUp(looks, 0))
    ensures OnlyUp(looks, 0) <==> others[0] != Lower && forall k :: 0 < k < |others| ==> others[k] != Raise
  {
    OneUp(looks);
    if CountedOnce(looks, length) {
      var k :| OnlyUp(looks, k);
      assert looks[k].missing == length;
    }
    assert forall k :: OnlyUp(looks, k) && looks[k].missing == length ==> CountedOnce(looks, length);
  }

  // ----- Transfers that do not overlap ---------------------------------------------

  /** While one channel is in the middle of a file no other touches the flag. */
  predicate Undisturbed(w: Session, steps: seq<Step>)
    requires Playable(w, steps)
    decreases |steps|
  {
    steps == [] ||
    (&& (EffectOf(w.At(steps[0].cid), steps[0].packet) != Keep ==>
           forall d :: d in w.channels && d != steps[0].cid ==> w.channels[d].readAhead <= 0)
     && Undisturbed(Next(w, steps[0]), steps[1..]))
  }

  lemma OnlyHeadersOpen(s: State, source: Side, p: Packet)
    requires p.Valid()
    ensures EffectOf(s, p) == Keep && s.readAhead <= 0 ==> Inspect(s, source, p).readAhead <= 0
  {
    if p.Source? && s.readAhead <= 0 && !Raises(s, p.data) {
      NoHeaderOpensNothing(s, p.data);
    }
  }

  lemma {:induction false} NoHeaderOpensNothing(s: State, rest: string)
    requires !Raises(s, rest)
    ensures Commands(s, rest).readAhead == s.readAhead
    decreases |rest|
  {
    if rest != [] {
      var (t, n) := Command(s, rest);
      CommandOpensNothing(s, rest);
      hide Command;
      if n < |rest| {
        NoHeaderOpensNothing(t, rest[n..]);
      }
    }
  }

  lemma CommandOpensNothing(s: State, rest: string)
    requires rest != [] && !(rest[0] == 'C' && ScanHeader(rest[1..]).Match?)
    ensures Command(s, rest).0.readAhead == s.readAhead
  {
    hide ScanHeader, ScanTimes, LineLength;
  }

  /** `u` is the channel as it would be alone; while a file is open the flag is the same. */
  ghost predicate Follows(u: State, w: Session, cid: nat)
    requires cid in w.channels
  {
    SameChannel(u, w.At(cid)) && (u.readAhead > 0 ==> u.report.mayCount == w.report.mayCount)
  }

  /** The one after the first of the steps. */
  function Alone(u: State, source: Side, step: Step, cid: nat): State
    requires step.packet.Valid()
  {
    if step.cid == cid then Inspect(u, source, step.packet) else u
  }

  lemma StillFollows(w: Session, steps: seq<Step>, cid: nat, u: State)
    requires Playable(w, steps) && cid in w.channels && steps != [] && Undisturbed(w, steps) && Follows(u, w, cid)
    ensures Undisturbed(Next(w, steps[0]), steps[1..])
    ensures Follows(Alone(u, w.channels[cid].source, steps[0], cid), Next(w, steps[0]), cid)
  {
    hide Inspect, EffectOf;
    var source, p := w.channels[cid].source, steps[0].packet;
    if steps[0].cid == cid {
      OwnStep(w, steps, cid, Keep);
      InspectSplit(u, w.At(cid), source, p);
      OnlyHeadersOpen(u, source, p);
    } else {
      OthersStep(w, steps, cid, Keep);
    }
  }

  lemma AloneCounts(w: Session, steps: seq<Step>, cid: nat, u: State) returns (files: nat, bytes: int)
    requires Playable(w, steps) && cid in w.channels && steps != [] && Follows(u, w, cid)
    ensures var looks, later := Looks(w, steps, cid), Looks(Next(w, steps[0]), steps[1..], cid);
            var t, source := Alone(u, w.channels[cid].source, steps[0], cid), w.channels[cid].source;
            && FilesIn(looks) == files + FilesIn(later) && BytesIn(looks) == bytes + BytesIn(later)
            && t.report == Added(u.report, source, files, bytes).(mayCount := t.report.mayCount)
  {
    hide Inspect, EffectOf, Next, Looks, FilesIn, BytesIn;
    LooksLater(w, steps, cid);
    var counts := steps[0].cid == cid && IsContent(w.At(cid), steps[0].packet) && w.report.mayCount;
    files, bytes := if counts then 1 else 0, if counts then w.channels[cid].readAhead else 0;
    if steps[0].cid == cid {
      InspectSplit(u, w.At(cid), w.channels[cid].source, steps[0].packet);
    }
  }

  lemma InspectFirst(u: State, source: Side, steps: seq<Step>, cid: nat)
    requires steps != [] && forall i :: 0 <= i < |steps| ==> steps[i].packet.Valid()
    requires forall p :: p in Of(steps, cid) || p in Of(steps[1..], cid) ==> p.Valid()
    ensures InspectAll(u, source, Of(steps, cid)) == InspectAll(Alone(u, source, steps[0], cid), source, Of(steps[1..], cid))
  {
    hide Inspect;
    if steps[0].cid == cid {
      assert Of(steps, cid)[1..] == Of(steps[1..], cid);
    } else {
      assert Of(steps, cid) == Of(steps[1..], cid);
    }
  }

  /** Then every channel counts what it would count if it were alone. */
  lemma {:induction false} CountedAsIfAlone(w: Session, steps: seq<Step>, cid: nat, u: State)
    requires Playable(w, steps) && cid in w.channels && Undisturbed(w, steps) && Follows(u, w, cid)
    ensures forall p :: p in Of(steps, cid) ==> p.Valid()
    ensures var t, looks := InspectAll(u, w.channels[cid].source, Of(steps, cid)), Looks(w, steps, cid);
            t.report == Added(u.report, w.channels[cid].source, FilesIn(looks), BytesIn(looks)).(mayCount := t.report.mayCount)
    decreases |steps|
  {
    hide Inspect, EffectOf, Next, Looks, FilesIn, BytesIn, Undisturbed, Alone, Of, Follows, InspectAll;
    OfIsValid(w, steps, cid);
    if steps == [] {
      AloneFromHere(w, cid, u);
    } else {
      var source, after, v := w.channels[cid].source, Alone(u, w.channels[cid].source, steps[0], cid), Next(w, steps[0]);
      OfIsValid(w, steps[1..], cid);
      StillFollows(w, steps, cid, u);
      var files, bytes := AloneCounts(w, steps, cid, u);
      InspectFirst(u, source, steps, cid);
      CountedAsIfAlone(v, steps[1..], cid, after);
    }
  }

  lemma AloneFromHere(w: Session, cid: nat, u: State)
    requires cid in w.channels
    ensures Of([], cid) == [] && Looks(w, [], cid) == [] && FilesIn([]) == 0 && BytesIn([]) == 0
    ensures InspectAll(u, w.channels[cid].source, []) == u
  {}

  lemma TreeIsCounted(w: Session, steps: seq<Step>, cid: nat, entries: seq<Entry>)
    requires Playable(w, steps) && cid in w.channels && Undisturbed(w, steps)
    requires w.channels[cid].readAhead == 0 && w.channels[cid].dirName != ""
    requires (forall x :: x in entries ==> WellFormed(x)) && WithoutOks(Of(steps, cid)) == AllPackets(entries)
    ensures FilesIn(Looks(w, steps, cid)) == AllFiles(entries) && BytesIn(Looks(w, steps, cid)) == AllBytes(entries)
  {
    hide Looks, FilesIn, BytesIn, InspectAll, Undisturbed, Of;
    var u, source := w.At(cid), w.channels[cid].source;
    CountedAsIfAlone(w, steps, cid, u);
    OksAreInvisible(u, source, Of(steps, cid));
    AllTransferred(u, source, entries);
  }

  /** The report with the files of each channel's trees added to it. */
  function Due(r: Report, w: Session, trees: map<nat, seq<Entry>>, cids: seq<nat>): Report
    requires forall c :: c in cids ==> c in w.channels && c in trees
  {
    if cids == [] then r
    else Added(Due(r, w, trees, cids[1..]), w.channels[cids[0]].source, AllFiles(trees[cids[0]]), AllBytes(trees[cids[0]]))
  }

  ghost predicate Sends(w: Session, steps: seq<Step>, cid: nat, entries: seq<Entry>)
    requires cid in w.channels
  {
    && w.channels[cid].readAhead == 0 && w.channels[cid].dirName != "" && (forall x :: x in entries ==> WellFormed(x))
    && WithoutOks(Of(steps, cid)) == AllPackets(entries)
  }

  /** Any number of channels, each sending its trees at the same time: while no file is disturbed the
      report grows by exactly the files of all of them. */
  lemma SessionIsCounted(w: Session, steps: seq<Step>, cids: seq<nat>, trees: map<nat, seq<Entry>>)
    requires Playable(w, steps) && Undisturbed(w, steps) && Distinct(cids) && trees.Keys == w.channels.Keys
    requires (forall c :: c in cids <==> c in w.channels) && forall c :: c in w.channels ==> Sends(w, steps, c, trees[c])
    ensures var r := Run(w, steps).report; r == Due(w.report, w, trees, cids).(mayCount := r.mayCount)
  {
    hide Looks, FilesIn, BytesIn, InspectAll, Undisturbed, Of, Run;
    ReportIsSum(w, steps, cids, w.report);
    TotalsAreDue(w.report, w, steps, cids, trees);
  }

  lemma {:induction false} TotalsAreDue(r: Report, w: Session, steps: seq<Step>, cids: seq<nat>, trees: map<nat, seq<Entry>>)
    requires Playable(w, steps) && Undisturbed(w, steps) && trees.Keys == w.channels.Keys
    requires (forall c :: c in cids ==> c in w.channels) && forall c :: c in w.channels ==> Sends(w, steps, c, trees[c])
    ensures Totals(r, w, steps, cids) == Due(r, w, trees, cids)
  {
    hide Looks, FilesIn, BytesIn, Undisturbed, Of;
    if cids != [] {
      TotalsAreDue(r, w, steps, cids[1..], trees);
      TreeIsCounted(w, steps, cids[0], trees[cids[0]]);
    }
  }

  // ----- Transfers that overlap ----------------------------------------------------

  function On(cid: nat, packets: seq<Packet>): (steps: seq<Step>)
    ensures |steps| == |packets| && forall i :: 0 <= i < |steps| ==> steps[i] == Step(cid, packets[i])
  {
    seq(|packets|, i requires 0 <= i < |packets| => Step(cid, packets[i]))
  }

  lemma PlayableAppend(w: Session, a: seq<Step>, b: seq<Step>)
    requires Playable(w, a) && Playable(w, b)
    ensures Playable(w, a + b)
    ensures forall v: Session :: v.channels.Keys == w.channels.Keys ==> Playable(v, b)
  {}

  lemma {:induction false} RunAppend(w: Session, a: seq<Step>, b: seq<Step>)
    requires Playable(w, a) && Playable(w, b)
    ensures Playable(w, a + b) && Playable(Run(w, a), b) && Run(w, a + b) == Run(Run(w, a), b)
    decreases |a|
  {
    hide Next, Playable;
    PlayableAppend(w, a, b);
    if a == [] {
      assert a + b == b;
      NothingRuns(w);
    } else {
      PlayableFirst(w, a);
      PlayableFirst(w, a + b);
      var v := Next(w, a[0]);
      assert (a + b)[0] == a[0] && (a + b)[1..] == a[1..] + b;
      RunAppend(v, a[1..], b);
    }
  }

  lemma NothingRuns(w: Session)
    ensures Playable(w, []) && Run(w, []) == w
  {}

  lemma PlayableFirst(w: Session, steps: seq<Step>)
    requires Playable(w, steps) && steps != []
    ensures steps[0].cid in w.channels && steps[0].packet.Valid()
    ensures Playable(Next(w, steps[0]), steps[1..])
  {}

  lemma {:induction false} RunOn(w: Session, cid: nat, packets: seq<Packet>)
    requires cid in w.channels && forall p :: p in packets ==> p.Valid()
    ensures Playable(w, On(cid, packets))
    ensures Run(w, On(cid, packets)) == w.With(cid, InspectAll(w.At(cid), w.channels[cid].source, packets))
    decreases |packets|
  {
    hide Inspect;
    if packets != [] {
      assert On(cid, packets)[1..] == On(cid, packets[1..]);
      RunOn(Next(w, Step(cid, packets[0])), cid, packets[1..]);
    }
  }

  /** A file header on its channel. */
  lemma HeaderOn(w: Session, cid: nat, e: Entry) returns (v: Session)
    requires cid in w.channels && e.File? && WellFormed(e) && w.channels[cid].readAhead == 0
    ensures Playable(w, On(cid, [FileHeader(e)])) && v == Run(w, On(cid, [FileHeader(e)]))
    ensures v.channels.Keys == w.channels.Keys && v.channels == w.channels[cid := v.channels[cid]]
    ensures v.channels[cid].readAhead == |e.content| && v.channels[cid].source == w.channels[cid].source
    ensures v.report == w.report.(mayCount := true)
  {
    RunOn(w, cid, [FileHeader(e)]);
    OnePacket(w.At(cid), w.channels[cid].source, FileHeader(e));
    HeaderIsRead(w.At(cid), w.channels[cid].source, e);
    v := Run(w, On(cid, [FileHeader(e)]));
  }

  /** The rest of a file's content on its channel. */
  lemma RestOn(w: Session, cid: nat, chunks: seq<string>) returns (v: Session)
    requires cid in w.channels && w.channels[cid].readAhead > 0 && IsRest(chunks, w.channels[cid].readAhead)
    ensures Playable(w, On(cid, Sources(chunks))) && v == Run(w, On(cid, Sources(chunks)))
    ensures v == w.With(cid, w.At(cid).(readAhead := 0, report := w.report.Count(w.channels[cid].source, w.channels[cid].readAhead)))
  {
    RunOn(w, cid, Sources(chunks));
    ContentIsSkipped(w.At(cid), w.channels[cid].source, chunks);
    v := Run(w, On(cid, Sources(chunks)));
  }

  /** Two files of which the second begins before the content of the first: the first is counted and the
      second is not, whatever they are. */
  lemma LaterFileIsLost(w: Session, c: nat, d: nat, a: Entry, b: Entry)
    requires c in w.channels && d in w.channels && c != d
    requires w.channels[c].readAhead == 0 && w.channels[d].readAhead == 0
    requires a.File? && WellFormed(a) && a.content != [] && b.File? && WellFormed(b) && b.content != []
    ensures var steps := On(c, [FileHeader(a)]) + On(d, [FileHeader(b)]) + On(c, Sources(a.chunks)) + On(d, Sources(b.chunks));
            && Playable(w, steps)
            && Run(w, steps).report == Added(w.report, w.channels[c].source, 1, |a.content|).(mayCount := false)
  {
    hide Run, FileHeader, Sources;
    RestOfAll(a);
    RestOfAll(b);
    var w1 := HeaderOn(w, c, a);
    var w2 := HeaderOn(w1, d, b);
    RunAppend(w, On(c, [FileHeader(a)]), On(d, [FileHeader(b)]));
    var w3 := RestOn(w2, c, a.chunks);
    RunAppend(w, On(c, [FileHeader(a)]) + On(d, [FileHeader(b)]), On(c, Sources(a.chunks)));
    var w4 := RestOn(w3, d, b.chunks);
    RunAppend(w, On(c, [FileHeader(a)]) + On(d, [FileHeader(b)]) + On(c, Sources(a.chunks)), On(d, Sources(b.chunks)));
  }

  /** A first part of the content on its channel. */
  lemma PartOn(w: Session, cid: nat, chunks: seq<string>) returns (v: Session)
    requires cid in w.channels && IsRest(chunks, w.channels[cid].readAhead)
    requires chunks != [] && 0 < |chunks[0]| < w.channels[cid].readAhead
    ensures Playable(w, On(cid, [Source(chunks[0])])) && v == Run(w, On(cid, [Source(chunks[0])]))
    ensures v == w.With(cid, w.At(cid).(readAhead := w.channels[cid].readAhead - |chunks[0]|,
                                        report := w.report.Count(w.channels[cid].source, w.channels[cid].readAhead)))
    ensures IsRest(chunks[1..], v.channels[cid].readAhead)
  {
    RunOn(w, cid, [Source(chunks[0])]);
    OnePacket(w.At(cid), w.channels[cid].source, Source(chunks[0]));
    ContentPacket(w.At(cid), w.channels[cid].source, chunks);
    v := Run(w, On(cid, [Source(chunks[0])]));
  }

  /** Two files of which the second begins within the content of the first: the first is counted twice,
      the second time with what was missing, and the second is not. */
  lemma FirstFileCountsTwice(w: Session, c: nat, d: nat, a: Entry, b: Entry)
    requires c in w.channels && d in w.channels && c != d
    requires w.channels[c].readAhead == 0 && w.channels[d].readAhead == 0
    requires a.File? && WellFormed(a) && b.File? && WellFormed(b) && b.content != []
    requires a.chunks != [] && 0 < |a.chunks[0]| < |a.content|
    ensures var source := w.channels[c].source;
            var steps := On(c, [FileHeader(a)]) + On(c, [Source(a.chunks[0])]) + On(d, [FileHeader(b)])
                         + On(c, Sources(a.chunks[1..])) + On(d, Sources(b.chunks));
            && Playable(w, steps)
            && Run(w, steps).report
               == Added(w.report, source, 2, |a.content| + (|a.content| - |a.chunks[0]|)).(mayCount := false)
  {
    hide Run, FileHeader, Sources, IsRest;
    RestOfAll(a);
    RestOfAll(b);
    var s1, s2, s3 := On(c, [FileHeader(a)]), On(c, [Source(a.chunks[0])]), On(d, [FileHeader(b)]);
    var s4, s5 := On(c, Sources(a.chunks[1..])), On(d, Sources(b.chunks));
    var w1 := HeaderOn(w, c, a);
    var w2 := PartOn(w1, c, a.chunks);
    RunAppend(w, s1, s2);
    var w3 := HeaderOn(w2, d, b);
    RunAppend(w, s1 + s2, s3);
    var w4 := RestOn(w3, c, a.chunks[1..]);
    RunAppend(w, s1 + s2 + s3, s4);
    var w5 := RestOn(w4, d, b.chunks);
    RunAppend(w, s1 + s2 + s3 + s4, s5);
  }

  lemma RestOfAll(e: Entry)
    requires e.File? && WellFormed(e)
    ensures IsRest(e.chunks, |e.content|)
  {}

  // ----- The code ------------------------------------------------------------------

  /** The session's table of channels, and the report they all share. */
  class ChannelTable {
    const report: SessionReport
    var channels: map<nat, Channel>

    ghost predicate Valid()
      reads this, channels.Values
    {
      && (forall c :: c in channels ==> channels[c].session == report)
      && forall c, d :: c in channels && d in channels && c != d ==> channels[c] != channels[d]
    }

    ghost function View(): Session
      reads this, report, channels.Values
      requires Valid()
    {
      Session(map c | c in channels :: StateOf(channels[c]), report.report)
    }

    ghost function StateOf(c: Channel): ChannelState
      reads c
    {
      ChannelState(c.source, c.scpReadAhead, c.scpDirName, c.scpDirDepth, c.log)
    }

    constructor ()
      ensures Valid() && fresh(report) && View() == Session(map[], Report(false, 0, 0, 0, 0))
    {
      report := new SessionReport();
      channels := map[];
    }

    method Open(cid: nat, source: Side, dirName: string)
      requires Valid()
      modifies this`channels
      ensures Valid() && cid in channels && fresh(channels[cid])
      ensures View() == Session(old(View()).channels[cid := ChannelState(source, 0, dirName, 0, [])], old(report.report))
    {
      var c := new Channel(source, dirName, report);
      channels := channels[cid := c];
    }

    /** One packet of one channel. */
    method InspectData(cid: nat, p: Packet)
      requires Valid() && cid in channels && p.Valid()
      modifies channels[cid], report
      ensures Valid() && View() == Next(old(View()), Step(cid, p))
    {
      ghost var before := View();
      var c := channels[cid];
      assert c.View() == before.At(cid);
      c.InspectData(p);
      assert View() == before.With(cid, c.View());
    }
  }
}
