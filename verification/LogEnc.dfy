/** Encrypted session logs: the chunk framing of the writer, the chunk loop of the decryptor, and
    the search for the key sidecar of a log file. The secretstream is an ideal authenticated stream
    cipher: the n-th pull succeeds on the n-th chunk that was pushed and on nothing else. */
module LogEnc {
  import opened Bytes
  import opened Text

  const HEADER_BYTES: nat := 24
  const ABYTES: nat := 17
  const CHUNK_SIZE: nat := 65536
  const CT_CHUNK: nat := CHUNK_SIZE + ABYTES

  /** One pushed chunk: its plaintext, whether its tag is FINAL, and the ciphertext that came out. */
  datatype Chunk = Chunk(plain: seq<byte>, final: bool, cipher: seq<byte>) {
    predicate Valid() { |cipher| == |plain| + ABYTES }
  }

  function Plain(chunks: seq<Chunk>): seq<byte> {
    if chunks == [] then [] else chunks[0].plain + Plain(chunks[1..])
  }

  function Cipher(chunks: seq<Chunk>): seq<byte> {
    if chunks == [] then [] else chunks[0].cipher + Cipher(chunks[1..])
  }

  lemma {:induction false} PlainAppend(a: seq<Chunk>, c: Chunk)
    ensures Plain(a + [c]) == Plain(a) + c.plain && Cipher(a + [c]) == Cipher(a) + c.cipher
  {
    var s := a + [c];
    if a == [] {
      assert s == [c] && s[1..] == [];
    } else {
      var more := a[1..];
      PlainAppend(more, c);
      assert s[0] == a[0] && s[1..] == more + [c];
      Associative(a[0].plain, Plain(more), c.plain);
      Associative(a[0].cipher, Cipher(more), c.cipher);
    }
  }

  /** Full chunks that are not final. */
  predicate Stride(chunks: seq<Chunk>) {
    forall i :: 0 <= i < |chunks| ==> chunks[i].Valid() && |chunks[i].plain| == CHUNK_SIZE && !chunks[i].final
  }

  /** The documented layout: full chunks, then one final chunk of any size up to a full one. */
  predicate Framed(chunks: seq<Chunk>) {
    && chunks != []
    && Stride(chunks[..|chunks| - 1])
    && var last := chunks[|chunks| - 1]; last.Valid() && last.final && |last.plain| <= CHUNK_SIZE
  }

  // ----- The writer ----------------------------------------------------------------

  class Writer {
    const header: seq<byte>
    const push: (nat, seq<byte>, bool) -> seq<byte>   // position in the stream, plaintext, final
    const buf: array<byte>
    var bufUsed: nat
    var position: nat   // of the next push
    var file: seq<byte>
    ghost var pushed: seq<Chunk>
    ghost var written: seq<byte>

    ghost predicate Valid()
      reads this, buf
    {
      && |header| == HEADER_BYTES
      && (forall i, p, f :: |push(i, p, f)| == |p| + ABYTES)
      && buf.Length == CHUNK_SIZE && bufUsed < CHUNK_SIZE
      && Stride(pushed) && position == |pushed|
      && file == header + Cipher(pushed)
      && written == Plain(pushed) + buf[..bufUsed]
    }

    constructor (header: seq<byte>, push: (nat, seq<byte>, bool) -> seq<byte>)
      requires |header| == HEADER_BYTES && forall i, p, f :: |push(i, p, f)| == |p| + ABYTES
      ensures Valid() && fresh(buf) && written == [] && this.header == header
    {
      this.header, this.push := header, push;
      buf := new byte[CHUNK_SIZE](_ => 0);
      bufUsed, position := 0, 0;
      file := header;
      pushed, written := [], [];
      new;
      assert header + [] == header;
    }

    method FlushChunk(final: bool)
      requires bufUsed <= buf.Length
      requires file == header + Cipher(pushed) && position == |pushed|
      modifies this`bufUsed, this`position, this`file, this`pushed
      ensures bufUsed == 0 && position == |pushed|
      ensures pushed == old(pushed) + [Chunk(buf[..old(bufUsed)], final, push(|old(pushed)|, buf[..old(bufUsed)], final))]
      ensures file == header + Cipher(pushed)
    {
      var ct := push(position, buf[..bufUsed], final);
      file := file + ct;
      ghost var chunk := Chunk(buf[..bufUsed], final, ct);
      PlainAppend(pushed, chunk);
      assert header + Cipher(pushed) + ct == header + (Cipher(pushed) + ct);
      pushed := pushed + [chunk];
      bufUsed, position := 0, position + 1;
    }

    method FillBuffer(part: seq<byte>)
      requires Valid() && bufUsed + |part| <= CHUNK_SIZE
      modifies this`bufUsed, this`written, buf
      ensures bufUsed == old(bufUsed) + |part|
      ensures buf[..bufUsed] == old(buf[..bufUsed]) + part
      ensures written == old(written) + part
    {
      forall i | 0 <= i < |part| {
        buf[bufUsed + i] := part[i];
      }
      bufUsed := bufUsed + |part|;
      written := written + part;
      assert buf[..bufUsed] == old(buf[..bufUsed]) + part;
    }

    /** Appends plaintext; every time the buffer is full one chunk goes out. */
    method Write(data: seq<byte>)
      requires Valid()
      modifies this`bufUsed, this`position, this`file, this`pushed, this`written, buf
      ensures Valid() && written == old(written) + data
    {
      var rest := data;
      while |rest| > 0
        invariant Valid() && written + rest == old(written) + data
      {
        var space := CHUNK_SIZE - bufUsed;
        var take := if |rest| < space then |rest| else space;
        assert rest == rest[..take] + rest[take..];
        assert written + rest == written + rest[..take] + rest[take..];
        ghost var before := written;
        FillBuffer(rest[..take]);
        rest := rest[take..];
        assert written == Plain(pushed) + buf[..bufUsed];
        if bufUsed == CHUNK_SIZE {
          ghost var chunks := pushed;
          FlushChunk(false);
          var chunk := pushed[|chunks|];
          PlainAppend(chunks, chunk);
          assert buf[..0] == [];
          assert Plain(pushed) + [] == Plain(pushed);
        }
      }
    }

    /** Closes the stream: the rest of the buffer, even if empty, becomes the final chunk. A full buffer has
        already gone out, so the final chunk is never a full one. */
    method Finalize() returns (ghost chunks: seq<Chunk>)
      requires Valid()
      modifies this`bufUsed, this`position, this`file, this`pushed
      ensures Framed(chunks) && Plain(chunks) == written && |chunks[|chunks| - 1].plain| < CHUNK_SIZE
      ensures file == header + Cipher(chunks)
    {
      ghost var was := pushed;
      FlushChunk(true);
      chunks := pushed;
      PlainAppend(was, chunks[|was|]);
      assert chunks[..|chunks| - 1] == was;
    }
  }

  // ----- The decryptor -------------------------------------------------------------

  /** What the library knows of one stream: its header and every chunk pushed under it. */
  datatype Stream = Stream(header: seq<byte>, chunks: seq<Chunk>)

  function FileOf(stream: Stream): seq<byte> {
    stream.header + Cipher(stream.chunks)
  }

  datatype Pulled = Refused | Pulled(plain: seq<byte>, final: bool)

  /** The ideal stream: pull number `n` accepts the n-th pushed ciphertext only. */
  function Pull(pushed: seq<Chunk>, n: nat, ct: seq<byte>): Pulled {
    if n < |pushed| && pushed[n].cipher == ct then Pulled(pushed[n].plain, pushed[n].final) else Refused
  }

  datatype Result = Result(ok: bool, output: seq<byte>)

  function Min(a: int, b: int): int { if a <= b then a else b }

  /** The bytes that reach the output when write(2) answers `answer`: negative is an error. */
  function Stored(plain: seq<byte>, answer: int): seq<byte> {
    if answer < 0 then [] else plain[..Min(answer, |plain|)]
  }

  /** One round: the loop ends with this result, or goes on after `plain`, having read `size` bytes. */
  datatype Round = End(result: Result) | More(plain: seq<byte>, size: nat)

  /** Pull number `n` with `rest` of the file unread; `answer` is what write(2) says. */
  function Turn(pushed: seq<Chunk>, n: nat, rest: seq<byte>, answer: int): (r: Round)
    ensures r.More? ==> 0 < r.size <= |rest|
  {
    var ct := rest[..Min(CT_CHUNK, |rest|)];
    if |ct| < ABYTES then End(Result(false, []))
    else match Pull(pushed, n, ct)
         case Refused => End(Result(false, []))
         case Pulled(plain, final) =>
           var stored := Stored(plain, answer);
           if stored != plain then End(Result(false, stored))
           else if final then End(Result(true, plain))
           else More(plain, |ct|)
  }

  /** The chunk loop from pull number `n` on; `disk(n)` is the answer of write(2) for the n-th chunk. */
  function Loop(pushed: seq<Chunk>, n: nat, rest: seq<byte>, disk: nat -> int): Result
    decreases |rest|
  {
    match Turn(pushed, n, rest, disk(n))
    case End(result) => result
    case More(plain, size) => Prepend(plain, Loop(pushed, n + 1, rest[size..], disk))
  }

  function Prepend(output: seq<byte>, r: Result): Result {
    Result(r.ok, output + r.output)
  }

  lemma PrependTwice(a: seq<byte>, b: seq<byte>, r: Result)
    ensures Prepend(a, Prepend(b, r)) == Prepend(a + b, r)
  {
    Associative(a, b, r.output);
  }

  lemma Unroll(pushed: seq<Chunk>, n: nat, rest: seq<byte>, disk: nat -> int)
    ensures Loop(pushed, n, rest, disk) == match Turn(pushed, n, rest, disk(n))
                                           case End(result) => result
                                           case More(plain, size) => Prepend(plain, Loop(pushed, n + 1, rest[size..], disk))
  {}

  /** A file under another header is another stream: no chunk of it is genuine. */
  function Decrypted(stream: Stream, file: seq<byte>, disk: nat -> int): Result {
    if |file| < HEADER_BYTES then Result(false, [])
    else Loop(if file[..HEADER_BYTES] == stream.header then stream.chunks else [], 0, file[HEADER_BYTES..], disk)
  }

  method DecryptFile(stream: Stream, file: seq<byte>, disk: nat -> int) returns (ok: bool, output: seq<byte>)
    ensures Result(ok, output) == Decrypted(stream, file, disk)
  {
    hide Loop;
    ok, output := false, [];
    if |file| < HEADER_BYTES {
      return;
    }
    var pushed := if file[..HEADER_BYTES] == stream.header then stream.chunks else [];
    var rest, n := file[HEADER_BYTES..], 0;
    ghost var total := Loop(pushed, 0, rest, disk);
    while true
      invariant total == Prepend(output, Loop(pushed, n, rest, disk))
      invariant !ok
      decreases |rest|
    {
      Unroll(pushed, n, rest, disk);
      var ct := rest[..Min(CT_CHUNK, |rest|)];
      if |ct| == 0 { break; }
      if |ct| < ABYTES { break; }
      var pulled := Pull(pushed, n, ct);
      ghost var before := output;
      if pulled.Refused? { break; }
      if |pulled.plain| > 0 {
        var stored := Stored(pulled.plain, disk(n));
        output := output + stored;
        if stored != pulled.plain { break; }
      }
      if pulled.final {
        ok := true;
        break;
      }
      PrependTwice(before, pulled.plain, Loop(pushed, n + 1, rest[|ct|..], disk));
      rest := rest[|ct|..];
      n := n + 1;
    }
  }

  /** Every write succeeds in full. */
  ghost predicate Reliable(disk: nat -> int) {
    forall n :: disk(n) >= CHUNK_SIZE
  }

  /** What the decryptor accepts of the stream from chunk `n` on: exactly the ciphertext, except that
      anything may follow when the final chunk is a full one. */
  predicate Acceptable(pushed: seq<Chunk>, n: nat, rest: seq<byte>)
    requires Framed(pushed) && n <= |pushed|
  {
    Cipher(pushed[n..]) <= rest && (rest == Cipher(pushed[n..]) || |pushed[|pushed| - 1].plain| == CHUNK_SIZE)
  }

  lemma PrefixAfter(a: seq<byte>, b: seq<byte>, rest: seq<byte>)
    ensures a + b <= a + rest <==> b <= rest
    ensures a + b == a + rest <==> b == rest
  {
    assert (a + b)[|a|..] == b && (a + rest)[|a|..] == rest;
    if a + b <= a + rest {
      assert (a + rest)[..|a + b|][|a|..] == rest[..|b|];
    }
  }

  /** One chunk: the piece read is the chunk's ciphertext exactly when the unread bytes continue
      acceptably so far. */
  lemma ReadChunk(pushed: seq<Chunk>, n: nat, rest: seq<byte>)
    requires Framed(pushed) && n < |pushed|
    ensures var c := pushed[n];
            && c.Valid() && |c.plain| <= CHUNK_SIZE && c.final == (n == |pushed| - 1)
            && Cipher(pushed[n..]) == c.cipher + Cipher(pushed[n + 1..])
            && Plain(pushed[n..]) == c.plain + Plain(pushed[n + 1..])
    ensures var ct := rest[..Min(CT_CHUNK, |rest|)];
            && (Acceptable(pushed, n, rest) ==> ct == pushed[n].cipher)
            && (ct == pushed[n].cipher ==>
                  rest == ct + rest[|ct|..] && (Acceptable(pushed, n, rest) <==> Acceptable(pushed, n + 1, rest[|ct|..])))
  {
    var c, more := pushed[n], pushed[n + 1..];
    assert pushed[n..] == [c] + more;
    assert n < |pushed| - 1 ==> c == pushed[..|pushed| - 1][n];
    var ct := rest[..Min(CT_CHUNK, |rest|)];
    if Acceptable(pushed, n, rest) {
      assert rest[..|c.cipher|] == Cipher(pushed[n..])[..|c.cipher|] == c.cipher;
    }
    if ct == c.cipher {
      assert rest == ct + rest[|ct|..];
      PrefixAfter(ct, Cipher(more), rest[|ct|..]);
    }
  }

  /** The loop, on any unread bytes whatever: it writes a prefix of the plaintext, and it succeeds
      exactly on what is acceptable, having written all of it. */
  lemma {:induction false} LoopMeans(pushed: seq<Chunk>, n: nat, rest: seq<byte>, disk: nat -> int)
    requires Framed(pushed) && n < |pushed|
    ensures var r := Loop(pushed, n, rest, disk);
            && r.output <= Plain(pushed[n..])
            && (r.ok ==> Acceptable(pushed, n, rest) && r.output == Plain(pushed[n..]))
            && (Reliable(disk) && Acceptable(pushed, n, rest) ==> r.ok)
    decreases |pushed| - n
  {
    ReadChunk(pushed, n, rest);
    var c := pushed[n];
    var ct := rest[..Min(CT_CHUNK, |rest|)];
    if ct == c.cipher && Stored(c.plain, disk(n)) == c.plain {
      if n == |pushed| - 1 {
        assert pushed[n + 1..] == [];
      } else {
        LoopMeans(pushed, n + 1, rest[|ct|..], disk);
      }
    }
  }

  lemma NothingGenuine(rest: seq<byte>, disk: nat -> int)
    ensures Loop([], 0, rest, disk) == Result(false, [])
  {}

  /** The decryptor on any file at all. It reports success exactly when the file is the one that was
      written, or that file with bytes appended behind a full final chunk (those it never reads); the
      output is then the whole plaintext, and a prefix of it otherwise. */
  lemma AcceptsExactly(stream: Stream, file: seq<byte>, disk: nat -> int)
    requires Framed(stream.chunks) && |stream.header| == HEADER_BYTES && Reliable(disk)
    ensures var r := Decrypted(stream, file, disk);
            && r.output <= Plain(stream.chunks)
            && (r.ok <==> FileOf(stream) <= file
                          && (file == FileOf(stream) || |stream.chunks[|stream.chunks| - 1].plain| == CHUNK_SIZE))
            && (r.ok ==> r.output == Plain(stream.chunks))
  {
    var chunks := stream.chunks;
    if |file| >= HEADER_BYTES && file[..HEADER_BYTES] == stream.header {
      var rest := file[HEADER_BYTES..];
      assert chunks[0..] == chunks && file == stream.header + rest;
      LoopMeans(chunks, 0, rest, disk);
      PrefixAfter(stream.header, Cipher(chunks), rest);
    } else {
      NothingGenuine(if |file| < HEADER_BYTES then [] else file[HEADER_BYTES..], disk);
      assert FileOf(stream)[..HEADER_BYTES] == stream.header;
    }
  }

  /** A stream framed by another encoder may end in a full final chunk; then bytes behind it go unnoticed. */
  lemma AppendedUnnoticed(stream: Stream, extra: seq<byte>, disk: nat -> int)
    requires Framed(stream.chunks) && |stream.header| == HEADER_BYTES && Reliable(disk) && extra != []
    ensures Decrypted(stream, FileOf(stream) + extra, disk).ok
            <==> |stream.chunks[|stream.chunks| - 1].plain| == CHUNK_SIZE
  {
    AcceptsExactly(stream, FileOf(stream) + extra, disk);
  }

  /** A file cut off anywhere - in the header, inside a chunk or between chunks - is refused, whatever
      the disk does, and what was written before is a prefix of the plaintext. */
  lemma TruncationIsNoticed(stream: Stream, k: nat, disk: nat -> int)
    requires Framed(stream.chunks) && |stream.header| == HEADER_BYTES && k < |FileOf(stream)|
    ensures var r := Decrypted(stream, FileOf(stream)[..k], disk);
            !r.ok && r.output <= Plain(stream.chunks)
  {
    var chunks, file := stream.chunks, FileOf(stream)[..k];
    if k >= HEADER_BYTES {
      assert file[..HEADER_BYTES] == stream.header;
      assert chunks[0..] == chunks;
      LoopMeans(chunks, 0, file[HEADER_BYTES..], disk);
    }
  }

  // ----- Writer and decryptor together ---------------------------------------------

  /** Writing any pieces and closing leaves a file that decrypts to the joined pieces - and no other file
      is taken for it: cut, altered, reordered or with anything appended, it is refused. */
  method WriteLog(header: seq<byte>, push: (nat, seq<byte>, bool) -> seq<byte>, pieces: seq<seq<byte>>)
    returns (file: seq<byte>, ghost stream: Stream)
    requires |header| == HEADER_BYTES && forall i, p, f :: |push(i, p, f)| == |p| + ABYTES
    ensures Framed(stream.chunks) && stream.header == header && file == FileOf(stream)
    ensures forall disk :: Reliable(disk) ==> Decrypted(stream, file, disk) == Result(true, Concat(pieces))
    ensures forall other, disk :: Reliable(disk) ==> (Decrypted(stream, other, disk).ok <==> other == file)
  {
    var w := new Writer(header, push);
    var i := 0;
    while i < |pieces|
      invariant 0 <= i <= |pieces| && w.Valid() && fresh(w) && fresh(w.buf)
      invariant w.written == Concat(pieces[..i]) && w.header == header
    {
      w.Write(pieces[i]);
      assert pieces[..i + 1] == pieces[..i] + [pieces[i]];
      ConcatAppend(pieces[..i], [pieces[i]]);
      assert Concat([pieces[i]]) == pieces[i];
      i := i + 1;
    }
    assert pieces[..i] == pieces;
    ghost var chunks := w.Finalize();
    file, stream := w.file, Stream(header, chunks);
    forall disk | Reliable(disk)
      ensures Decrypted(stream, file, disk) == Result(true, Concat(pieces))
    {
      AcceptsExactly(stream, file, disk);
    }
    forall other, disk | Reliable(disk)
      ensures Decrypted(stream, other, disk).ok <==> other == file
    {
      AcceptsExactly(stream, other, disk);
    }
  }

  // ----- The sidecar ---------------------------------------------------------------

  /** Where the extensions of the last path component start: its first dot, or the end. */
  function FirstDot(path: string, from: nat): (e: nat)
    requires from <= |path|
    ensures from <= e <= |path|
    ensures e < |path| ==> path[e] == '.'
    ensures forall j :: from <= j < e ==> path[j] != '.'
    decreases |path| - from
  {
    if from == |path| || path[from] == '.' then from else FirstDot(path, from + 1)
  }

  predicate DigitsIn(s: string, lo: nat, hi: nat)
    requires hi <= |s|
  {
    forall k :: lo <= k < hi ==> IsDigit(s[k])
  }

  /** A dash from which only digits, at least one, run to the end of the bare name. */
  predicate ChannelSuffix(path: string, i: nat)
    requires LastIndex(path, '/') < i < |path|
  {
    var e := FirstDot(path, LastIndex(path, '/') + 1);
    path[i] == '-' && i + 1 < e && DigitsIn(path, i + 1, e)
  }

  /** The places in the last path component where the path may be cut before appending ".enc". */
  predicate Cut(path: string, i: nat) {
    LastIndex(path, '/') < i < |path| && (path[i] == '.' || ChannelSuffix(path, i))
  }

  function Sidecar(path: string, i: nat): string
    requires i <= |path|
  {
    path[..i] + ".enc"
  }

  /** Nothing from `n` on is left to try. */
  ghost predicate Exhausted(path: string, n: nat, present: string -> bool) {
    forall j :: n <= j && Cut(path, j) ==> !present(Sidecar(path, j))
  }

  /** No cut lies between a dot and the previous dot, and none behind the last. */
  lemma CutsAreDots(path: string, n: nat, m: nat)
    requires LastIndex(path, '/') < n < m <= |path| && path[n] == '.' && LastIndex(path[..m], '.') == n
    ensures forall j :: n < j < m ==> !Cut(path, j)
  {
    var e := FirstDot(path, LastIndex(path, '/') + 1);
    assert e <= n;
    forall j | n < j < m
      ensures !Cut(path, j)
    {
      assert path[..m][j] != '.';
    }
  }

  /** Once the extensions are gone, the last dash is the only place left, if digits follow it. */
  lemma CutsInName(path: string, n: nat, dash: int)
    requires LastIndex(path, '/') < n <= |path| && n == FirstDot(path, LastIndex(path, '/') + 1)
    requires dash == LastIndex(path[..n], '-')
    ensures forall j :: 0 <= j < n && Cut(path, j) ==> j == dash
    ensures LastIndex(path, '/') < dash ==> (Cut(path, dash) <==> dash + 1 < n && DigitsIn(path, dash + 1, n))
  {
    forall j | 0 <= j < n && Cut(path, j)
      ensures j == dash
    {
      assert path[..n][j] == path[j] == '-';
      assert forall k :: j < k < n ==> path[..n][k] == path[k];
    }
    assert dash >= 0 ==> path[..n][dash] == path[dash] == '-';
  }

  /** Strips extensions from the last path component, one at a time, until a sidecar is present. */
  method StripExtensions(path: string, present: string -> bool) returns (found: bool, base: string)
    ensures LastIndex(path, '/') < |base| && base <= path
    ensures Exhausted(path, |base| + 1, present)
    ensures found ==> Cut(path, |base|) && present(Sidecar(path, |base|))
    ensures !found ==> Exhausted(path, |base|, present) && |base| == FirstDot(path, LastIndex(path, '/') + 1)
  {
    base, found := path, false;
    var slash, dot := LastIndex(base, '/'), LastIndex(base, '.');
    while !found && dot != -1 && slash < dot
      invariant slash == LastIndex(path, '/') < |base| && base <= path
      invariant |base| < |path| ==> path[|base|] == '.'
      invariant Exhausted(path, |base| + 1, present)
      invariant !found ==> dot == LastIndex(base, '.') && Exhausted(path, |base|, present)
      invariant found ==> |base| < |path| && present(Sidecar(path, |base|))
      decreases |base|, !found
    {
      CutsAreDots(path, dot, |base|);
      assert base[..dot] == path[..dot];
      base := base[..dot];
      if present(base + ".enc") {
        found := true;
      } else {
        dot := LastIndex(base, '.');
      }
    }
    if !found {
      assert forall j :: slash < j < |base| ==> path[j] == base[j];
    }
  }

  /** The sidecar is the one at the last cut where it is present; a dot in a directory name is never
      cut at, and the channel suffix comes only after every extension. */
  method FindSidecar(path: string, present: string -> bool) returns (found: bool, encPath: string)
    ensures found ==> exists i :: 0 <= i && Cut(path, i) && encPath == Sidecar(path, i) && present(encPath)
                                  && Exhausted(path, i + 1, present)
    ensures !found ==> Exhausted(path, 0, present)
  {
    var slash := LastIndex(path, '/');
    var base;
    found, base := StripExtensions(path, present);
    encPath := base + ".enc";
    if found {
      assert encPath == Sidecar(path, |base|);
      return;
    }
    var dash := LastIndex(base, '-');
    assert base == path[..|base|];
    CutsInName(path, |base|, dash);
    if dash != -1 && slash < dash {
      var allDigits := true;
      var p := dash + 1;
      while p < |base|
        invariant dash < p <= |base|
        invariant allDigits && DigitsIn(path, dash + 1, p)
      {
        assert base[p] == path[p];
        if base[p] < '0' || base[p] > '9' {
          allDigits := false;
          break;
        }
        p := p + 1;
      }
      if allDigits && p > dash + 1 {
        encPath := base[..dash] + ".enc";
        found := present(encPath);
        assert encPath == Sidecar(path, dash);
      }
    }
  }
}
