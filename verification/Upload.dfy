/** The upload protocol: the client splits a file and sends it chunk by chunk; the head
    server checks every chunk and the whole file before it commits anything. */
module Upload {
  import opened Basics
  import opened Text
  import opened Sha256Spec
  import opened Sha256Stream
  import opened Metadata
  import opened UploadText
  import opened MetadataStore
  import opened Wire

  /** A chunk as the head received it. */
  datatype Chunk = Chunk(id: int, data: seq<byte>)

  /** Outcomes of the outside world: which servers are chosen for the k-th chunk, and what
      each of them answers when the chunk is sent to it. */
  datatype Backend = Backend(
    select: nat -> seq<string>,
    send: (nat, int, string, seq<byte>) -> Option<string>)

  // ---- client

  function NumChunks(size: nat, chunkSize: nat): nat
    requires chunkSize > 0
  {
    if size == 0 then 0 else (size + chunkSize - 1) / chunkSize
  }

  /** The pieces of a file, all of the chunk size but perhaps the last. */
  function Split(file: seq<byte>, chunkSize: nat): seq<seq<byte>>
    requires chunkSize > 0
    decreases |file|
  {
    if file == [] then []
    else if |file| <= chunkSize then [file]
    else [file[..chunkSize]] + Split(file[chunkSize..], chunkSize)
  }

  function HeaderLine(id: nat, data: seq<byte>): string {
    "CHUNK " + PrintInt(id) + Spaced([PrintInt(|data|), HexSha256(data)])
  }

  function SendChunk(id: nat, data: seq<byte>): seq<byte> { ToBytes(HeaderLine(id, data) + "\n") + data }

  /** Chunks `from`, `from`+1, ... and the end marker. */
  function SendFrom(from: nat, pieces: seq<seq<byte>>): seq<byte>
    decreases |pieces|
  {
    if pieces == [] then ToBytes("EOF\n") else SendChunk(from, pieces[0]) + SendFrom(from + 1, pieces[1..])
  }

  function RequestLine(name: string, size: nat, count: nat, hash: string): string {
    "UPLOAD" + Spaced([name, PrintInt(size), PrintInt(count), hash])
  }

  // ---- head server

  /** `std::stoull`: a minus sign wraps around, a value out of range throws. */
  function ReadSize(s: string): Option<(nat, string)> {
    match ReadInt(s)
    case None => None
    case Some((n, rest)) =>
      if n <= -TWO_64 || n >= TWO_64 then None
      else if n < 0 then Some((n + TWO_64, rest))
      else Some((n, rest))
  }

  function ParseHeader(s: string): Option<(int, nat, string)> {
    match ReadInt(s)
    case None => None
    case Some((id, r1)) =>
      match ReadSize(r1)
      case None => None
      case Some((size, r2)) =>
        match ReadToken(r2)
        case None => None
        case Some((hash, _)) => Some((id, size, hash))
  }

  datatype Order = Order(file: string, size: nat, count: nat, hash: string)

  /** The first request line, in its current and its older form. */
  function ParseOrder(line: string, chunkSize: nat): Option<Order>
    requires chunkSize > 0
  {
    var ts := Tokens(line);
    if |ts| >= 5 && ts[0] == "UPLOAD" then
      var size, count := ReadSize(ts[2]), ReadSize(ts[3]);
      if size.None? || count.None? then None else Some(Order(ts[1], size.value.0, count.value.0, ts[4]))
    else if |ts| == 4 && ts[0] == "UPLOAD" then
      var size := ReadSize(ts[2]);
      if size.None? then None else Some(Order(ts[1], size.value.0, NumChunks(size.value.0, chunkSize), ts[3]))
    else None
  }

  /** What the receive loop accepts: `None` is any abort. */
  function Receive(stream: seq<byte>, want: nat): Option<seq<Chunk>>
    decreases want
  {
    if want == 0 then Some([])
    else
      var (line, rest) := ReadLine(stream);
      if "CHUNK " <= line then
        match ParseHeader(line[6..])
        case None => None
        case Some((id, size, hash)) =>
          if size > |rest| || HexSha256(rest[..size]) != hash then None
          else
            match Receive(rest[size..], want - 1)
            case None => None
            case Some(chunks) => Some([Chunk(id, rest[..size])] + chunks)
      else if line == "EOF" then Some([])
      else None
  }

  /** The transfers submitted for the k-th chunk. */
  function TransfersOf(backend: Backend, k: nat, c: Chunk): seq<Transfer> {
    var servers := backend.select(k);
    seq(|servers|, i requires 0 <= i < |servers| =>
      Transfer(c.id, servers[i], HexSha256(c.data), backend.send(k, c.id, servers[i], c.data)))
  }

  function AllTransfers(backend: Backend, chunks: seq<Chunk>): seq<Transfer> {
    if chunks == [] then []
    else AllTransfers(backend, chunks[..|chunks| - 1]) +
         TransfersOf(backend, |chunks| - 1, chunks[|chunks| - 1])
  }

  function FileBytes(chunks: seq<Chunk>): seq<byte> {
    if chunks == [] then [] else FileBytes(chunks[..|chunks| - 1]) + chunks[|chunks| - 1].data
  }

  datatype Verdict = Rejected | Committed(file: string, hash: string, records: seq<ChunkRecord>)

  function Decide(order: Order, stream: seq<byte>, backend: Backend): Verdict {
    if order.size == 0 then Committed(order.file, order.hash, [])
    else
      match Receive(stream, order.count)
      case None => Rejected
      case Some(chunks) =>
        var records := RecordsFrom(backend, order.file, chunks);
        var hash := HexSha256(FileBytes(chunks));
        if (order.hash != "" && hash != order.hash) || records == [] then Rejected
        else Committed(order.file, hash, records)
  }

  function HandleUpload(line: string, stream: seq<byte>, backend: Backend, chunkSize: nat): Verdict
    requires chunkSize > 0
  {
    match ParseOrder(line, chunkSize)
    case None => Rejected
    case Some(order) => Decide(order, stream, backend)
  }

  // ---- the loops

  lemma ChunksLeft(size: nat, chunkSize: nat)
    requires chunkSize > 0
    ensures size > 0 ==>
      NumChunks(size, chunkSize) == 1 + NumChunks(if size <= chunkSize then 0 else size - chunkSize, chunkSize)
  {
    if 0 < size <= chunkSize {
      DivideOne(size + chunkSize - 1, chunkSize);
    } else if chunkSize < size {
      DivideStep(size - 1, chunkSize);
    }
  }

  lemma DivideOne(n: nat, d: nat)
    requires 0 < d <= n < 2 * d
    ensures n / d == 1
  {}

  lemma DivideStep(n: nat, d: nat)
    requires d > 0
    ensures (n + d) / d == n / d + 1
  {
    var q := n / d + 1;
    assert q * d == n / d * d + d;
    QuotientIs(n + d, d, q, n % d);
  }

  lemma QuotientIs(m: int, d: nat, q: int, r: int)
    requires 0 <= r < d && m == q * d + r
    ensures m / d == q
  {
    var p, s := m / d, m % d;
    assert m == p * d + s;
    assert (p - q) * d == p * d - q * d && (q - p) * d == q * d - p * d;
    if p > q {
      AtLeastOnce(p - q, d);
    } else if p < q {
      AtLeastOnce(q - p, d);
    }
  }

  lemma AtLeastOnce(k: int, d: nat)
    requires k >= 1
    ensures k * d >= d
  {}

  lemma {:induction false} SplitCount(file: seq<byte>, chunkSize: nat)
    requires chunkSize > 0
    ensures |Split(file, chunkSize)| == NumChunks(|file|, chunkSize)
    decreases |file|
  {
    ChunksLeft(|file|, chunkSize);
    if |file| > chunkSize {
      SplitCount(file[chunkSize..], chunkSize);
    }
  }

  /** The pieces are in order, cover the file, and only the last may be short. */
  lemma {:induction false} SplitCovers(file: seq<byte>, chunkSize: nat)
    requires chunkSize > 0
    ensures Flatten(Split(file, chunkSize)) == file
    ensures forall i | 0 <= i < |Split(file, chunkSize)| :: 0 < |Split(file, chunkSize)[i]| <= chunkSize
    ensures forall i | 0 <= i < |Split(file, chunkSize)| - 1 :: |Split(file, chunkSize)[i]| == chunkSize
    decreases |file|
  {
    if |file| > chunkSize {
      SplitCovers(file[chunkSize..], chunkSize);
      assert file == file[..chunkSize] + file[chunkSize..];
    } else if file != [] {
      assert Flatten([file]) == file;
    }
  }

  method SendOne(i: nat, data: seq<byte>) returns (bytes: seq<byte>)
    ensures bytes == SendChunk(i, data)
  {
    hide HexSha256, ToBytes, Spaced;
    var hash := HashOf(data);
    var header := "CHUNK " + PrintInt(i) + Spaced([PrintInt(|data|), hash]);
    bytes := ToBytes(header + "\n") + data;
  }

  /** The send loop of the client. */
  method SendFile(file: seq<byte>, chunkSize: nat) returns (wire: seq<byte>)
    requires chunkSize > 0
    ensures wire == SendFrom(0, Split(file, chunkSize))
  {
    hide SendChunk, NumChunks, ToBytes;
    var count := NumChunks(|file|, chunkSize);
    wire := [];
    var sent, i := 0, 0;
    assert file[0..] == file;
    while i < count
      invariant 0 <= sent <= |file| && i + NumChunks(|file| - sent, chunkSize) == count
      invariant SendFrom(0, Split(file, chunkSize)) == wire + SendFrom(i, Split(file[sent..], chunkSize))
    {
      var size := Min(chunkSize, |file| - sent);
      var data := file[sent..sent + size];
      AllSent(|file| - sent, chunkSize);
      ChunksLeft(|file| - sent, chunkSize);
      SplitStep(file, sent, size, chunkSize);
      var bytes := SendOne(i, data);
      ghost var rest := Split(file[sent + size..], chunkSize);
      assert ([data] + rest)[1..] == rest;
      assert wire + (bytes + SendFrom(i + 1, rest)) == wire + bytes + SendFrom(i + 1, rest);
      wire := wire + bytes;
      sent := sent + size;
      i := i + 1;
    }
    AllSent(|file| - sent, chunkSize);
    wire := wire + ToBytes("EOF\n");
  }

  lemma SplitStep(file: seq<byte>, sent: nat, size: nat, chunkSize: nat)
    requires chunkSize > 0 && sent < |file| && size == Min(chunkSize, |file| - sent)
    ensures Split(file[sent..], chunkSize) == [file[sent..sent + size]] + Split(file[sent + size..], chunkSize)
  {
    var left := file[sent..];
    assert left[..size] == file[sent..sent + size] && left[size..] == file[sent + size..];
    if |left| <= chunkSize {
      assert left == left[..size] && left[size..] == [];
    }
  }

  /** The client's first pass over the file, in buffers of a fixed size. */
  method HashFile(file: seq<byte>, bufferSize: nat) returns (text: string)
    requires bufferSize > 0
    ensures text == HexSha256(file)
  {
    hide HexSha256, Sha256.Absorbed;
    var hasher := new Sha256();
    var read := 0;
    while read < |file|
      invariant 0 <= read <= |file|
      invariant hasher.Valid() && fresh(hasher) && fresh(hasher.data) && fresh(hasher.state)
      invariant hasher.Message() == file[..read]
    {
      var n := Min(bufferSize, |file| - read);
      assert file[..read + n] == file[..read] + file[read..read + n];
      hasher.Update(file[read..read + n]);
      read := read + n;
    }
    assert file[..|file|] == file;
    text := hasher.Digest();
  }

  lemma AllSent(left: nat, chunkSize: nat)
    requires chunkSize > 0
    ensures NumChunks(left, chunkSize) == 0 <==> left == 0
  {
    ChunksLeft(left, chunkSize);
  }

  function Prepend(chunks: seq<Chunk>, more: Option<seq<Chunk>>): Option<seq<Chunk>> {
    if more.None? then None else Some(chunks + more.value)
  }

  /** The receive loop of the head, with its running hasher and its list of transfers. */
  method ReceiveChunks(stream: seq<byte>, count: nat, backend: Backend)
    returns (ok: bool, pending: seq<Transfer>, digest: string)
    ensures ok <==> Receive(stream, count).Some?
    ensures ok ==> pending == AllTransfers(backend, Receive(stream, count).value)
    ensures ok ==> digest == HexSha256(FileBytes(Receive(stream, count).value))
  {
    hide HexSha256, Sha256.Absorbed, ParseHeader, ReadLine, TransfersOf;
    var hasher := new Sha256();
    var rest := stream;
    var received := 0;
    ghost var chunks: seq<Chunk> := [];
    ok, pending, digest := true, [], "";
    assert Receive(stream, count) == Prepend([], Receive(stream, count)) by { PrependNothing(Receive(stream, count)); }
    while received < count
      invariant 0 <= received <= count && |chunks| == received
      invariant hasher.Valid() && fresh(hasher) && fresh(hasher.data) && fresh(hasher.state)
      invariant hasher.Message() == FileBytes(chunks) && pending == AllTransfers(backend, chunks)
      invariant Receive(stream, count) == Prepend(chunks, Receive(rest, count - received))
    {
      var (line, body) := ReadLine(rest);
      if "CHUNK " <= line {
        var header := ParseHeader(line[6..]);
        if header.None? { return false, pending, digest; }
        var (id, size, hash) := header.value;
        if size > |body| { return false, pending, digest; }
        var data := body[..size];
        var computed := HashOf(data);
        if computed != hash { return false, pending, digest; }
        hasher.Update(data);
        var transfers := SubmitTransfers(backend, received, Chunk(id, data));
        pending := pending + transfers;
        ghost var before := chunks;
        chunks := chunks + [Chunk(id, data)];
        assert chunks[..|chunks| - 1] == before;
        PrependMore(before, Chunk(id, data), Receive(body[size..], count - received - 1));
        rest := body[size..];
        received := received + 1;
      } else if line == "EOF" {
        assert Receive(stream, count) == Some(chunks + []);
        assert chunks + [] == chunks;
        digest := hasher.Digest();
        return;
      } else {
        return false, pending, digest;
      }
    }
    assert chunks + [] == chunks;
    digest := hasher.Digest();
  }

  lemma PrependNothing(more: Option<seq<Chunk>>)
    ensures Prepend([], more) == more
  {
    if more.Some? {
      assert [] + more.value == more.value;
    }
  }

  lemma PrependMore(before: seq<Chunk>, c: Chunk, more: Option<seq<Chunk>>)
    ensures Prepend(before, Prepend([c], more)) == Prepend(before + [c], more)
  {
    if more.Some? {
      assert before + ([c] + more.value) == before + [c] + more.value;
    }
  }

  /** One transfer per selected server. */
  method SubmitTransfers(backend: Backend, k: nat, c: Chunk) returns (transfers: seq<Transfer>)
    ensures transfers == TransfersOf(backend, k, c)
  {
    hide HexSha256;
    var servers := backend.select(k);
    var checksum := HashOf(c.data);
    transfers := [];
    for i := 0 to |servers|
      invariant transfers == TransfersOf(backend, k, c)[..i]
    {
      transfers := transfers + [Transfer(c.id, servers[i], checksum, backend.send(k, c.id, servers[i], c.data))];
    }
  }

  /** `handle_client_upload`: the store changes only when the verdict is to commit. */
  method HandleClientUpload(store: Store, line: string, stream: seq<byte>, backend: Backend,
                            chunkSize: nat, factor: int)
    returns (verdict: Verdict)
    requires chunkSize > 0
    modifies store
    ensures verdict == HandleUpload(line, stream, backend, chunkSize)
    ensures verdict.Rejected? ==> store.files == old(store.files) && store.disk == old(store.disk)
    ensures verdict.Committed? ==>
      var r := ParseRequest(RequestText(verdict.file, verdict.records, verdict.hash, factor));
      store.files == Replaced(old(store.files), r.file, r.hash, r.chunks, r.count) && store.OnDisk()
  {
    hide HexSha256, ParseRequest, RequestText, Receive, Collected, AllTransfers;
    var parsed := ParseOrder(line, chunkSize);
    if parsed.None? { return Rejected; }
    var order := parsed.value;
    if order.size == 0 {
      store.CreateEntry(RequestText(order.file, [], order.hash, factor));
      return Committed(order.file, order.hash, []);
    }
    var ok, pending, digest := ReceiveChunks(stream, order.count, backend);
    if !ok { return Rejected; }
    var records := CollectTransfers(order.file, pending);
    if order.hash != "" && digest != order.hash { return Rejected; }
    if records == [] { return Rejected; }
    store.CreateEntry(RequestText(order.file, records, digest, factor));
    verdict := Committed(order.file, digest, records);
  }

  // ---- what the head accepts

  /** Header line, newline, data, for each chunk in turn. */
  function Frames(headers: seq<string>, chunks: seq<Chunk>): seq<byte>
    requires |headers| == |chunks|
  {
    if chunks == [] then []
    else ToBytes(headers[0] + "\n") + chunks[0].data + Frames(headers[1..], chunks[1..])
  }

  /** The header announces exactly this id, this length and the digest of these bytes. */
  predicate Announces(header: string, c: Chunk) {
    "CHUNK " <= header && ParseHeader(header[6..]) == Some((c.id, |c.data|, HexSha256(c.data)))
  }

  lemma ReadLineSplits(stream: seq<byte>)
    ensures var (line, rest) := ReadLine(stream);
      ToBytes(line + "\n") + rest == stream || (rest == [] && ToBytes(line + "\n") == stream + [10])
  {
    var text := ToText(stream);
    var n := Span(NotNewline, text);
    if n < |stream| {
      assert text[n] == '\n' && stream[n] == 10;
      assert ToBytes(text[..n] + "\n") + stream[n + 1..] == stream;
    } else {
      assert ToBytes(text[..n] + "\n") == stream + [10];
    }
  }

  /** Accepted chunks are consecutive frames of the stream, each announced by its header
      with the digest of its own bytes; fewer than asked for only before an end marker. */
  lemma {:induction false} ReceivedAreFrames(stream: seq<byte>, want: nat)
    returns (headers: seq<string>, rest: seq<byte>)
    requires Receive(stream, want).Some?
    ensures var chunks := Receive(stream, want).value;
      && |headers| == |chunks| <= want
      && (forall i | 0 <= i < |chunks| :: Announces(headers[i], chunks[i]))
      && (Frames(headers, chunks) + rest == stream || (rest == [] && Frames(headers, chunks) == stream + [10]))
      && (|chunks| < want ==> ReadLine(rest).0 == "EOF")
    decreases want
  {
    hide HexSha256, ReadLine, ParseHeader, ToBytes;
    headers, rest := [], stream;
    var (line, body) := ReadLine(stream);
    if want > 0 && "CHUNK " <= line {
      var (id, size, hash) := ParseHeader(line[6..]).value;
      var c := Chunk(id, body[..size]);
      var hs, r := ReceivedAreFrames(body[size..], want - 1);
      headers, rest := [line] + hs, r;
      var more := Receive(body[size..], want - 1).value;
      assert ([c] + more)[1..] == more && headers[1..] == hs;
      ReadLineSplits(stream);
      assert body == body[..size] + body[size..];
      if body[size..] == [] {
        NothingToReceive(want - 1);
      }
      FrameStep(ToBytes(line + "\n"), c.data, Frames(hs, more), r, body[size..], stream);
    }
  }

  lemma NothingToReceive(want: nat)
    ensures Receive([], want) == if want == 0 then Some([]) else None
  {
    hide HexSha256, ParseHeader;
    assert ReadLine([]).0 == "";
  }

  lemma FrameStep(head: seq<byte>, data: seq<byte>, frames: seq<byte>,
                  rest: seq<byte>, tail: seq<byte>, stream: seq<byte>)
    requires head + (data + tail) == stream || (data + tail == [] && head == stream + [10])
    requires frames + rest == tail || (rest == [] && frames == tail + [10])
    requires head + (data + tail) != stream ==> frames + rest == tail
    ensures head + data + frames + rest == stream || (rest == [] && head + data + frames == stream + [10])
  {
    if frames + rest == tail {
      assert head + data + frames + rest == head + (data + tail);
      if data + tail == [] {
        assert data == [] && tail == [] && frames == [] && rest == [];
        assert head + data + frames == head;
      }
    } else {
      assert head + data + frames == head + (data + tail) + [10];
    }
  }

  /** The converse: announced frames are accepted, all of them when they are as many as asked
      for, and fewer when an end marker follows. */
  lemma {:induction false} FramesAreReceived(headers: seq<string>, chunks: seq<Chunk>, rest: seq<byte>, want: nat)
    requires |headers| == |chunks| <= want
    requires forall i | 0 <= i < |chunks| ::
      Announces(headers[i], chunks[i]) && All(IsByteChar, headers[i]) && All(NotNewline, headers[i])
    requires |chunks| < want ==> ReadLine(rest).0 == "EOF"
    ensures Receive(Frames(headers, chunks) + rest, want) == Some(chunks)
    decreases want
  {
    hide HexSha256, ReadLine, ParseHeader, ToBytes;
    if chunks == [] {
      assert Frames(headers, chunks) + rest == rest;
    } else {
      var head, c, hs, more := headers[0], chunks[0], headers[1..], chunks[1..];
      FramesAreReceived(hs, more, rest, want - 1);
      var body := c.data + (Frames(hs, more) + rest);
      assert Frames(headers, chunks) + rest == ToBytes(head + "\n") + body;
      ReadLineIs(head, body);
      assert body[..|c.data|] == c.data && body[|c.data|..] == Frames(hs, more) + rest;
      assert chunks == [c] + more;
    }
  }

  // ---- what the client sends is accepted

  function Numbered(from: nat, pieces: seq<seq<byte>>): seq<Chunk> {
    seq(|pieces|, i requires 0 <= i < |pieces| => Chunk(from + i, pieces[i]))
  }

  predicate IsPlain(c: char) { IsByteChar(c) && IsGraph(c) }

  lemma DigestIsToken(m: seq<byte>)
    ensures IsToken(HexSha256(m)) && All(IsPlain, HexSha256(m)) && HexSha256(m) != ""
  {
    hide HexSha256;
    HexSha256IsHex(m);
    assert forall i | 0 <= i < |HexSha256(m)| :: IsHexDigit(HexSha256(m)[i]);
  }

  lemma NumeralIsPlain(n: int)
    ensures All(IsPlain, PrintInt(n))
  {
    PrintIntIsToken(n);
    forall i | 0 <= i < |PrintInt(n)|
      ensures IsPlain(PrintInt(n)[i])
    {
      assert IsNumeral(PrintInt(n)[i]);
    }
  }

  lemma HeaderParses(id: nat, data: seq<byte>)
    requires |data| < TWO_64
    ensures Announces(HeaderLine(id, data), Chunk(id, data))
    ensures All(IsByteChar, HeaderLine(id, data)) && All(NotNewline, HeaderLine(id, data))
  {
    hide HexSha256, ReadInt, PrintInt, ReadToken;
    var size, hash := PrintInt(|data|), HexSha256(data);
    DigestIsToken(data);
    NumeralIsPlain(id);
    NumeralIsPlain(|data|);
    var tail := " " + hash;
    assert Spaced([size, hash]) == " " + size + tail by { SpacedTwo(size, hash); }
    var line := HeaderLine(id, data);
    assert line[6..] == "" + PrintInt(id) + (" " + size + tail);
    ReadIntIs("", id, " " + size + tail);
    ReadIntIs(" ", |data|, tail);
    ReadTokenIs(" ", hash, "");
    assert " " + hash + "" == tail;
  }

  /** The request line and a chunk's header line, written out. */
  lemma UploadFormats(name: string, size: nat, count: nat, hash: string, id: nat, data: seq<byte>)
    ensures RequestLine(name, size, count, hash) ==
      "UPLOAD " + name + " " + PrintInt(size) + " " + PrintInt(count) + " " + hash
    ensures HeaderLine(id, data) == "CHUNK " + PrintInt(id) + " " + PrintInt(|data|) + " " + HexSha256(data)
  {
    hide PrintInt, HexSha256, Spaced;
    var s, n := PrintInt(size), PrintInt(count);
    SpacedTwo(n, hash);
    SpacedTwo(PrintInt(|data|), HexSha256(data));
    SpacedMore(s, [n, hash]);
    SpacedMore(name, [s, n, hash]);
    assert [s] + [n, hash] == [s, n, hash] && [name] + [s, n, hash] == [name, s, n, hash];
  }

  lemma SpacedMore(a: string, more: seq<string>)
    ensures Spaced([a] + more) == " " + a + Spaced(more)
  {
    assert ([a] + more)[1..] == more;
  }

  lemma SpacedTwo(a: string, b: string)
    ensures Spaced([a, b]) == " " + a + (" " + b)
  {
    assert Spaced([b]) == " " + b;
    assert [a, b][1..] == [b];
  }

  lemma {:induction false} SentIsReceived(from: nat, pieces: seq<seq<byte>>)
    requires forall i | 0 <= i < |pieces| :: |pieces[i]| < TWO_64
    ensures Receive(SendFrom(from, pieces), |pieces|) == Some(Numbered(from, pieces))
    decreases |pieces|
  {
    hide HexSha256, ParseHeader, ReadLine, HeaderLine, ToBytes;
    if pieces != [] {
      var data, more := pieces[0], pieces[1..];
      SentIsReceived(from + 1, more);
      HeaderParses(from, data);
      var rest := SendFrom(from + 1, more);
      ReadLineIs(HeaderLine(from, data), data + rest);
      assert SendFrom(from, pieces) == ToBytes(HeaderLine(from, data) + "\n") + (data + rest);
      assert (data + rest)[..|data|] == data && (data + rest)[|data|..] == rest;
      assert Numbered(from, pieces) == [Chunk(from, data)] + Numbered(from + 1, more);
    }
  }

  lemma {:induction false} NumberedBytes(from: nat, pieces: seq<seq<byte>>)
    ensures FileBytes(Numbered(from, pieces)) == Flatten(pieces)
    decreases |pieces|
  {
    if pieces == [] {
      assert Numbered(from, pieces) == [];
    } else {
      var n := |pieces| - 1;
      NumberedBytes(from, pieces[..n]);
      assert Numbered(from, pieces)[..n] == Numbered(from, pieces[..n]);
      FlattenSnoc(pieces[..n], pieces[n]);
      assert pieces == pieces[..n] + [pieces[n]];
    }
  }

  lemma OrderParses(name: string, size: nat, count: nat, hash: string, chunkSize: nat)
    requires IsToken(name) && IsToken(hash) && size < TWO_64 && count < TWO_64 && chunkSize > 0
    ensures ParseOrder(RequestLine(name, size, count, hash), chunkSize) == Some(Order(name, size, count, hash))
  {
    hide ReadInt, PrintInt, Tokens, NonEmpty;
    var s, n := PrintInt(size), PrintInt(count);
    PrintIntIsToken(size);
    PrintIntIsToken(count);
    var ws := [name, s, n, hash];
    SpacedStart(ws);
    TokensCons("", "UPLOAD", Spaced(ws));
    assert "" + "UPLOAD" + Spaced(ws) == RequestLine(name, size, count, hash);
    TokensOfSpaced("", ws);
    assert "" + Spaced(ws) == Spaced(ws);
    NonEmptyOfTokens(ws);
    ReadIntIs("", size, "");
    ReadIntIs("", count, "");
    assert "" + s + "" == s && "" + n + "" == n;
  }

  /** Numbers of chunks and bytes are read as 64-bit unsigned ones: a minus sign wraps around
      and anything further out is refused. */
  lemma ReadSizeIs(n: int)
    ensures ReadSize(PrintInt(n)) == if -TWO_64 < n < TWO_64 then Some((n % TWO_64, "")) else None
  {
    hide ReadInt, PrintInt;
    ReadIntIs("", n, "");
    assert "" + PrintInt(n) + "" == PrintInt(n);
  }

  /** The older request line leaves the number of chunks to the head. */
  lemma OldOrderParses(name: string, size: nat, hash: string, chunkSize: nat)
    requires IsToken(name) && IsToken(hash) && size < TWO_64 && chunkSize > 0
    ensures ParseOrder("UPLOAD" + Spaced([name, PrintInt(size), hash]), chunkSize) ==
      Some(Order(name, size, NumChunks(size, chunkSize), hash))
  {
    hide ReadInt, PrintInt, Tokens, NonEmpty, NumChunks;
    var s := PrintInt(size);
    PrintIntIsToken(size);
    var ws := [name, s, hash];
    SpacedStart(ws);
    TokensCons("", "UPLOAD", Spaced(ws));
    assert "" + "UPLOAD" + Spaced(ws) == "UPLOAD" + Spaced(ws);
    TokensOfSpaced("", ws);
    assert "" + Spaced(ws) == Spaced(ws);
    NonEmptyOfTokens(ws);
    ReadIntIs("", size, "");
    assert "" + s + "" == s;
  }

  lemma FewerChunksThanBytes(file: seq<byte>, chunkSize: nat)
    requires chunkSize > 0
    ensures |Split(file, chunkSize)| <= |file|
    decreases |file|
  {
    if |file| > chunkSize {
      FewerChunksThanBytes(file[chunkSize..], chunkSize);
    }
  }

  /** The head's answer to a client that follows the protocol: it commits the file under
      the digest of its bytes, with the records of the transfers that succeeded, unless
      not a single replica of a non-empty file was stored. */
  lemma ClientUploadVerdict(name: string, file: seq<byte>, sendSize: nat, backend: Backend, chunkSize: nat)
    requires IsToken(name) && |file| < TWO_64 && sendSize > 0 && chunkSize > 0
    ensures var pieces := Split(file, sendSize);
      var records := RecordsFrom(backend, name, Numbered(0, pieces));
      HandleUpload(RequestLine(name, |file|, |pieces|, HexSha256(file)), SendFrom(0, pieces), backend, chunkSize) ==
        if file != [] && records == [] then Rejected
        else Committed(name, HexSha256(file), if file == [] then [] else records)
  {
    hide HexSha256, Receive, SendFrom, ParseOrder, RequestLine, Collected, AllTransfers, Numbered;
    var pieces := Split(file, sendSize);
    DigestIsToken(file);
    FewerChunksThanBytes(file, sendSize);
    OrderParses(name, |file|, |pieces|, HexSha256(file), chunkSize);
    SplitCovers(file, sendSize);
    PiecesFit(file, sendSize);
    SentIsReceived(0, pieces);
    NumberedBytes(0, pieces);
  }

  lemma PiecesFit(file: seq<byte>, chunkSize: nat)
    requires chunkSize > 0
    ensures forall i | 0 <= i < |Split(file, chunkSize)| :: |Split(file, chunkSize)[i]| <= |file|
    decreases |file|
  {
    if |file| > chunkSize {
      PiecesFit(file[chunkSize..], chunkSize);
    }
  }

  // ---- every chunk goes to every selected server

  /** The number of transfers submitted before those of the k-th chunk. */
  ghost function Before(backend: Backend, k: nat): nat {
    if k == 0 then 0 else Before(backend, k - 1) + |backend.select(k - 1)|
  }

  /** The transfer of the k-th chunk to its i-th server. */
  ghost function TransferTo(backend: Backend, chunks: seq<Chunk>, k: nat, i: nat): Transfer
    requires k < |chunks| && i < |backend.select(k)|
  {
    var server := backend.select(k)[i];
    Transfer(chunks[k].id, server, HexSha256(chunks[k].data),
             backend.send(k, chunks[k].id, server, chunks[k].data))
  }

  lemma {:induction false} TransferCount(backend: Backend, chunks: seq<Chunk>)
    ensures |AllTransfers(backend, chunks)| == Before(backend, |chunks|)
  {
    hide HexSha256;
    if chunks != [] { TransferCount(backend, chunks[..|chunks| - 1]); }
  }

  /** Every received chunk is sent to every server selected for it, in order, and nothing
      else is sent. */
  lemma {:induction false} TransferAt(backend: Backend, chunks: seq<Chunk>, k: nat, i: nat)
    requires k < |chunks| && i < |backend.select(k)|
    ensures |AllTransfers(backend, chunks)| == Before(backend, |chunks|)
    ensures Before(backend, k) + i < Before(backend, |chunks|)
    ensures AllTransfers(backend, chunks)[Before(backend, k) + i] == TransferTo(backend, chunks, k, i)
  {
    hide HexSha256;
    var n := |chunks| - 1;
    TransferCount(backend, chunks);
    TransferCount(backend, chunks[..n]);
    if k < n {
      TransferAt(backend, chunks[..n], k, i);
    }
  }

  /** The record that a successful transfer of the k-th chunk leaves. */
  predicate StoredFrom(backend: Backend, file: string, chunks: seq<Chunk>, k: nat, r: ChunkRecord)
    requires k < |chunks|
  {
    && r.chunkId == chunks[k].id && r.checksum == HexSha256(chunks[k].data) && r.server in backend.select(k)
    && match backend.send(k, r.chunkId, r.server, chunks[k].data)
       case None => false
       case Some("") => r.path == "/tmp/chunks/" + r.server + "_" + file + "_chunk_" + PrintInt(r.chunkId)
       case Some(path) => r.path == path
  }

  predicate SentFrom(backend: Backend, chunks: seq<Chunk>, k: nat, t: Transfer)
    requires k < |chunks|
  {
    && t.chunkId == chunks[k].id && t.checksum == HexSha256(chunks[k].data)
    && t.server in backend.select(k) && t.outcome == backend.send(k, t.chunkId, t.server, chunks[k].data)
  }

  lemma {:induction false} TransferOrigin(backend: Backend, chunks: seq<Chunk>, t: Transfer)
    requires t in AllTransfers(backend, chunks)
    ensures exists k :: 0 <= k < |chunks| && SentFrom(backend, chunks, k, t)
  {
    hide HexSha256;
    var n := |chunks| - 1;
    if t in AllTransfers(backend, chunks[..n]) {
      TransferOrigin(backend, chunks[..n], t);
      var k :| 0 <= k < n && SentFrom(backend, chunks[..n], k, t);
      assert SentFrom(backend, chunks, k, t);
    } else {
      assert SentFrom(backend, chunks, n, t);
    }
  }

  lemma StoredIsSent(backend: Backend, file: string, chunks: seq<Chunk>, k: nat, t: Transfer, r: ChunkRecord)
    requires k < |chunks| && SentFrom(backend, chunks, k, t) && RecordOf(file, t, r)
    ensures StoredFrom(backend, file, chunks, k, r)
  {
    hide HexSha256, PrintInt;
    if t.outcome.value == "" {
      assert "/tmp/chunks/" + t.server + "_" + (file + "_chunk_" + PrintInt(t.chunkId)) ==
             "/tmp/chunks/" + t.server + "_" + file + "_chunk_" + PrintInt(t.chunkId);
    }
  }

  /** The records that the head collects for the received chunks. */
  function RecordsFrom(backend: Backend, file: string, chunks: seq<Chunk>): seq<ChunkRecord> {
    var pending := AllTransfers(backend, chunks);
    Collected(file, pending, |pending|)
  }

  /** Every record stands for a chunk that its server stored. */
  lemma RecordIsStored(backend: Backend, file: string, chunks: seq<Chunk>, r: ChunkRecord)
    requires r in RecordsFrom(backend, file, chunks)
    ensures exists k :: 0 <= k < |chunks| && StoredFrom(backend, file, chunks, k, r)
  {
    hide HexSha256, Collected, AllTransfers;
    var pending := AllTransfers(backend, chunks);
    CollectedFrom(file, pending, |pending|, r);
    var i :| 0 <= i < |pending| && RecordOf(file, pending[i], r);
    TransferOrigin(backend, chunks, pending[i]);
    var k :| 0 <= k < |chunks| && SentFrom(backend, chunks, k, pending[i]);
    StoredIsSent(backend, file, chunks, k, pending[i], r);
  }

  /** Every selected server that stored a chunk has a record of it. */
  lemma StoredIsRecorded(backend: Backend, file: string, chunks: seq<Chunk>, k: nat, server: string)
    requires k < |chunks| && server in backend.select(k)
    requires backend.send(k, chunks[k].id, server, chunks[k].data).Some?
    ensures exists r :: r in RecordsFrom(backend, file, chunks) && r.server == server &&
                        StoredFrom(backend, file, chunks, k, r)
  {
    hide HexSha256, Collected, AllTransfers, PathOf;
    var pending := AllTransfers(backend, chunks);
    var i :| 0 <= i < |backend.select(k)| && backend.select(k)[i] == server;
    TransferAt(backend, chunks, k, i);
    var p := Before(backend, k) + i;
    var from := CollectedInOrder(file, pending, |pending|);
    var q :| 0 <= q < |from| && from[q] == p;
    var r := RecordsFrom(backend, file, chunks)[q];
    assert SentFrom(backend, chunks, k, pending[p]) && RecordOf(file, pending[p], r);
    StoredIsSent(backend, file, chunks, k, pending[p], r);
  }

  /** Whatever arrives, a commit of a non-empty file means: the committed hash is the digest
      of the bytes received and equals the one declared, every record is that of a received
      chunk that its server stored, and every selected server that stored a chunk has one. */
  lemma CommitIsVerified(line: string, stream: seq<byte>, backend: Backend, chunkSize: nat)
    requires chunkSize > 0
    requires HandleUpload(line, stream, backend, chunkSize).Committed?
    ensures var v := HandleUpload(line, stream, backend, chunkSize);
      var order := ParseOrder(line, chunkSize).value;
      && ParseOrder(line, chunkSize).Some? && v.file == order.file
      && if order.size == 0 then v.hash == order.hash && v.records == []
         else
           var chunks := Receive(stream, order.count).value;
           && Receive(stream, order.count).Some? && v.records != []
           && v.hash == HexSha256(FileBytes(chunks)) && (order.hash != "" ==> v.hash == order.hash)
           && (forall r | r in v.records ::
                 exists k :: 0 <= k < |chunks| && StoredFrom(backend, v.file, chunks, k, r))
           && forall k, server | 0 <= k < |chunks| && server in backend.select(k) &&
                                 backend.send(k, chunks[k].id, server, chunks[k].data).Some? ::
                exists r :: r in v.records && r.server == server && StoredFrom(backend, v.file, chunks, k, r)
  {
    hide HexSha256, Receive, Collected, AllTransfers, ParseOrder, FileBytes, StoredFrom;
    var order := ParseOrder(line, chunkSize).value;
    if order.size != 0 {
      var chunks := Receive(stream, order.count).value;
      var records := RecordsFrom(backend, order.file, chunks);
      assert records == HandleUpload(line, stream, backend, chunkSize).records;
      forall r | r in records
        ensures exists k :: 0 <= k < |chunks| && StoredFrom(backend, order.file, chunks, k, r)
      {
        RecordIsStored(backend, order.file, chunks, r);
      }
      forall k, server | 0 <= k < |chunks| && server in backend.select(k) &&
                         backend.send(k, chunks[k].id, server, chunks[k].data).Some?
        ensures exists r :: r in records && r.server == server && StoredFrom(backend, order.file, chunks, k, r)
      {
        StoredIsRecorded(backend, order.file, chunks, k, server);
      }
    }
  }

  /** An upload is committed exactly when its request parses and its file is empty, or its
      chunks arrive, their bytes have the declared digest, if one is declared, and at least
      one server stored a chunk. */
  lemma CommitIff(line: string, stream: seq<byte>, backend: Backend, chunkSize: nat)
    requires chunkSize > 0
    ensures HandleUpload(line, stream, backend, chunkSize).Committed? <==>
      && ParseOrder(line, chunkSize).Some?
      && var order := ParseOrder(line, chunkSize).value;
         var received := Receive(stream, order.count);
         order.size == 0 || (received.Some? && Accepted(order, received.value, backend))
  {
    hide HexSha256, Receive, RecordsFrom, ParseOrder, FileBytes, SomeStored;
    var parsed := ParseOrder(line, chunkSize);
    if parsed.Some? {
      var order := parsed.value;
      var received := Receive(stream, order.count);
      if received.Some? { RecordedIffStored(backend, order.file, received.value); }
    }
  }

  ghost predicate Accepted(order: Order, chunks: seq<Chunk>, backend: Backend) {
    (order.hash == "" || HexSha256(FileBytes(chunks)) == order.hash) && SomeStored(backend, chunks)
  }

  ghost predicate SomeStored(backend: Backend, chunks: seq<Chunk>) {
    exists k, server :: 0 <= k < |chunks| && server in backend.select(k) &&
                        backend.send(k, chunks[k].id, server, chunks[k].data).Some?
  }

  lemma RecordedIffStored(backend: Backend, file: string, chunks: seq<Chunk>)
    ensures RecordsFrom(backend, file, chunks) != [] <==> SomeStored(backend, chunks)
  {
    hide HexSha256, RecordsFrom;
    var records := RecordsFrom(backend, file, chunks);
    if records != [] {
      RecordIsStored(backend, file, chunks, records[0]);
      var k :| 0 <= k < |chunks| && StoredFrom(backend, file, chunks, k, records[0]);
      assert backend.send(k, chunks[k].id, records[0].server, chunks[k].data).Some?;
    }
    if SomeStored(backend, chunks) {
      var k, server :| 0 <= k < |chunks| && server in backend.select(k) &&
                       backend.send(k, chunks[k].id, server, chunks[k].data).Some?;
      StoredIsRecorded(backend, file, chunks, k, server);
    }
  }
}
