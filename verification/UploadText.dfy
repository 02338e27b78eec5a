/** From finished transfers to the metadata request and back: `collect_transfers`,
    `store_metadata` and the parser of `create_entry`. */
module UploadText {
  import opened Basics
  import opened Text
  import opened Metadata

  /** One chunk sent to one server; the outcome holds the path the server reported. */
  datatype Transfer = Transfer(chunkId: int, server: string, checksum: string, outcome: Option<string>)

  /** The key under which a cluster server keeps a chunk. */
  function ChunkKey(file: string, id: int): string { file + "_chunk_" + PrintInt(id) }

  function PathOf(file: string, t: Transfer): string
    requires t.outcome.Some?
  {
    if t.outcome.value != "" then t.outcome.value
    else "/tmp/chunks/" + t.server + "_" + ChunkKey(file, t.chunkId)
  }

  function Successes(pending: seq<Transfer>, id: int): nat {
    if pending == [] then 0
    else
      var last := pending[|pending| - 1];
      Successes(pending[..|pending| - 1], id) + (if last.outcome.Some? && last.chunkId == id then 1 else 0)
  }

  /** The records of the successful transfers among the first `n`, in order. */
  function Collected(file: string, pending: seq<Transfer>, n: nat): seq<ChunkRecord>
    requires n <= |pending|
  {
    if n == 0 then []
    else
      var t := pending[n - 1];
      Collected(file, pending, n - 1) +
      (if t.outcome.None? then []
       else [ChunkRecord(t.chunkId, t.server, PathOf(file, t), t.checksum, Successes(pending, t.chunkId))])
  }

  method CollectTransfers(file: string, pending: seq<Transfer>) returns (chunks: seq<ChunkRecord>)
    ensures chunks == Collected(file, pending, |pending|)
  {
    var counts: map<int, int> := map[];
    for i := 0 to |pending|
      invariant forall id :: Successes(pending[..i], id) == if id in counts then counts[id] else 0
    {
      var t := pending[i];
      if t.outcome.Some? {
        counts := counts[t.chunkId := (if t.chunkId in counts then counts[t.chunkId] else 0) + 1];
      }
      assert pending[..i + 1][..i] == pending[..i];
    }
    assert pending[..|pending|] == pending;
    chunks := [];
    for i := 0 to |pending|
      invariant chunks == Collected(file, pending, i)
    {
      var t := pending[i];
      if t.outcome.Some? {
        SuccessesSeen(pending, i);
        chunks := chunks + [ChunkRecord(t.chunkId, t.server, PathOf(file, t), t.checksum, counts[t.chunkId])];
      }
    }
  }

  lemma SuccessesSeen(pending: seq<Transfer>, i: nat)
    requires i < |pending| && pending[i].outcome.Some?
    ensures Successes(pending, pending[i].chunkId) > 0
  {
    if i < |pending| - 1 {
      SuccessesSeen(pending[..|pending| - 1], i);
    }
  }

  lemma {:induction false} CountCollected(file: string, pending: seq<Transfer>, n: nat, id: int)
    requires n <= |pending|
    ensures CountOf(Collected(file, pending, n), id) == Successes(pending[..n], id)
  {
    if n > 0 {
      CountCollected(file, pending, n - 1, id);
      var init, t := Collected(file, pending, n - 1), pending[n - 1];
      assert pending[..n][..n - 1] == pending[..n - 1];
      if t.outcome.Some? {
        CountSnoc(init,
          ChunkRecord(t.chunkId, t.server, PathOf(file, t), t.checksum, Successes(pending, t.chunkId)), id);
      } else {
        assert Collected(file, pending, n) == init;
      }
    }
  }

  predicate RecordOf(file: string, t: Transfer, r: ChunkRecord) {
    && t.outcome.Some? && PathOf(file, t) == r.path
    && t.chunkId == r.chunkId && t.server == r.server && t.checksum == r.checksum
  }

  /** Every record stands for one successful transfer. */
  lemma {:induction false} CollectedFrom(file: string, pending: seq<Transfer>, n: nat, r: ChunkRecord)
    requires n <= |pending| && r in Collected(file, pending, n)
    ensures exists i :: 0 <= i < n && RecordOf(file, pending[i], r)
    ensures r.replicaCount == Successes(pending, r.chunkId)
  {
    if r in Collected(file, pending, n - 1) {
      CollectedFrom(file, pending, n - 1, r);
    } else {
      assert RecordOf(file, pending[n - 1], r);
    }
  }

  /** Every successful transfer has its record, and the records keep the order of the transfers. */
  lemma {:induction false} CollectedInOrder(file: string, pending: seq<Transfer>, n: nat) returns (from: seq<int>)
    requires n <= |pending|
    ensures var records := Collected(file, pending, n);
      && |from| == |records| && (forall i, j | 0 <= i < j < |from| :: from[i] < from[j])
      && (forall k | 0 <= k < |from| :: 0 <= from[k] < n && RecordOf(file, pending[from[k]], records[k]))
      && forall i | 0 <= i < n && pending[i].outcome.Some? :: i in from
  {
    from := [];
    if n > 0 {
      from := CollectedInOrder(file, pending, n - 1);
      hide Successes, PathOf;
      if pending[n - 1].outcome.Some? { from := from + [n - 1]; }
    }
  }

  ghost predicate DistinctTransfers(pending: seq<Transfer>) {
    forall i, j | 0 <= i < j < |pending| ::
      pending[i].chunkId == pending[j].chunkId ==> pending[i].server != pending[j].server
  }

  lemma CollectedIsExact(file: string, pending: seq<Transfer>)
    ensures ExactCounts(Collected(file, pending, |pending|))
  {
    var out := Collected(file, pending, |pending|);
    assert pending[..|pending|] == pending;
    forall r | r in out
      ensures r.replicaCount == CountOf(out, r.chunkId)
    {
      CollectedFrom(file, pending, |pending|, r);
      CountCollected(file, pending, |pending|, r.chunkId);
    }
  }

  lemma {:induction false} CollectedIsDistinct(file: string, pending: seq<Transfer>, n: nat)
    requires n <= |pending| && DistinctTransfers(pending)
    ensures DistinctPlacement(Collected(file, pending, n))
  {
    if n > 0 {
      CollectedIsDistinct(file, pending, n - 1);
      var init, t := Collected(file, pending, n - 1), pending[n - 1];
      forall r | r in init
        ensures r.chunkId == t.chunkId ==> r.server != t.server
      {
        CollectedFrom(file, pending, n - 1, r);
      }
    }
  }

  // ---- the request text

  function ChunkText(r: ChunkRecord): string {
    PrintInt(r.chunkId) + Spaced([r.server, r.path, r.checksum, PrintInt(r.replicaCount)])
  }

  function ChunkTexts(chunks: seq<ChunkRecord>): seq<string> {
    seq(|chunks|, i requires 0 <= i < |chunks| => ChunkText(chunks[i]))
  }

  function RequestLines(file: string, chunks: seq<ChunkRecord>, hash: string, factor: int): seq<string> {
    [file, "TTL=3600", "HASH=" + hash, "REPLICAS=" + PrintInt(factor)] + ChunkTexts(chunks)
  }

  /** What `store_metadata` hands to `create_entry`. */
  function RequestText(file: string, chunks: seq<ChunkRecord>, hash: string, factor: int): string {
    JoinLines(RequestLines(file, chunks, hash, factor))
  }

  datatype Request = Request(file: string, hash: string, count: int, chunks: seq<ChunkRecord>)

  function ParseChunk(line: string): Option<ChunkRecord> {
    match ReadInt(line)
    case None => None
    case Some((id, rest)) =>
      var ts := Tokens(rest);
      if |ts| < 2 then None
      else
        var checksum := if |ts| > 2 then ts[2] else "";
        var count := if |ts| > 3 then ReadInt(ts[3]) else None;
        Some(ChunkRecord(id, ts[0], ts[1], checksum, match count case None => 0 case Some((n, _)) => n))
  }

  /** Lines that are not chunk records are skipped. */
  function ParseChunks(lines: seq<string>): seq<ChunkRecord> {
    if lines == [] then []
    else
      ParseChunks(lines[..|lines| - 1]) +
      match ParseChunk(lines[|lines| - 1])
      case None => []
      case Some(r) => [r]
  }

  /** Drops the first line when it carries the tag. */
  function AfterTag(lines: seq<string>, tag: string): seq<string> {
    if lines != [] && tag <= lines[0] then lines[1..] else lines
  }

  function TagValue(lines: seq<string>, tag: string): string {
    if lines != [] && tag <= lines[0] then lines[0][|tag|..] else ""
  }

  function ParseRequest(text: string): Request { ParseLines(SplitLines(text)) }

  function ParseLines(lines: seq<string>): Request {
    if lines == [] then Request("", "", 0, [])
    else
      var untimed := AfterTag(NonEmpty(lines[1..]), "TTL=");
      var unhashed := AfterTag(untimed, "HASH=");
      var body := AfterTag(unhashed, "REPLICAS=");
      var count := match ReadInt(TagValue(unhashed, "REPLICAS=")) case None => 0 case Some((n, _)) => n;
      Request(lines[0], TagValue(untimed, "HASH="), count, ParseChunks(body))
  }

  /** A record that survives as one line of the request. */
  ghost predicate Sendable(r: ChunkRecord) { IsToken(r.server) && IsToken(r.path) && IsToken(r.checksum) }

  lemma ParseChunkText(r: ChunkRecord)
    requires Sendable(r)
    ensures ParseChunk(ChunkText(r)) == Some(r)
  {
    hide ReadInt, Tokens, PrintInt;
    var count := PrintInt(r.replicaCount);
    var ws := [r.server, r.path, r.checksum, count];
    PrintIntIsToken(r.replicaCount);
    SpacedStart(ws);
    ReadIntIs("", r.chunkId, Spaced(ws));
    assert "" + PrintInt(r.chunkId) + Spaced(ws) == ChunkText(r);
    TokensOfSpaced("", ws);
    assert "" + Spaced(ws) == Spaced(ws);
    NonEmptyOfTokens(ws);
    ReadIntIs("", r.replicaCount, "");
    assert "" + count + "" == count;
  }

  lemma NonEmptyOfTokens(ws: seq<string>)
    requires forall i | 0 <= i < |ws| :: ws[i] != ""
    ensures NonEmpty(ws) == ws
  {}

  lemma ChunkTextIsLine(r: ChunkRecord)
    requires Sendable(r)
    ensures All(NotNewline, ChunkText(r)) && ChunkText(r) != ""
  {
    PrintIntIsToken(r.chunkId);
    PrintIntIsToken(r.replicaCount);
    LineOfTokens(PrintInt(r.chunkId), [r.server, r.path, r.checksum, PrintInt(r.replicaCount)]);
  }

  lemma {:induction false} ParseChunkTexts(chunks: seq<ChunkRecord>)
    requires forall i | 0 <= i < |chunks| :: Sendable(chunks[i])
    ensures ParseChunks(ChunkTexts(chunks)) == chunks
  {
    hide ParseChunk, ChunkText, Sendable;
    if chunks != [] {
      var n := |chunks| - 1;
      var init := chunks[..n];
      ParseChunkTexts(init);
      assert ChunkTexts(chunks)[..n] == ChunkTexts(init);
      ParseChunkText(chunks[n]);
      assert chunks == init + [chunks[n]];
    }
  }

  lemma StripTag(tag: string, value: string, rest: seq<string>)
    ensures AfterTag([tag + value] + rest, tag) == rest && TagValue([tag + value] + rest, tag) == value
  {
    assert ([tag + value] + rest)[1..] == rest;
  }

  lemma RequestLinesAreLines(file: string, chunks: seq<ChunkRecord>, hash: string, factor: int)
    requires All(NotNewline, file) && All(NotNewline, hash)
    requires forall i | 0 <= i < |chunks| :: Sendable(chunks[i])
    ensures forall i | 0 <= i < |RequestLines(file, chunks, hash, factor)| ::
      All(NotNewline, RequestLines(file, chunks, hash, factor)[i])
    ensures NonEmpty(RequestLines(file, chunks, hash, factor)[1..]) == RequestLines(file, chunks, hash, factor)[1..]
  {
    hide ChunkText, Sendable, PrintInt;
    var lines := RequestLines(file, chunks, hash, factor);
    PrintIntIsToken(factor);
    forall i | 4 <= i < |lines|
      ensures All(NotNewline, lines[i]) && lines[i] != ""
    {
      ChunkTextIsLine(chunks[i - 4]);
    }
    NonEmptyOfTokens(lines[1..]);
  }

  /** The request parses back to exactly the collected records. */
  lemma RequestRoundTrip(file: string, chunks: seq<ChunkRecord>, hash: string, factor: int)
    requires All(NotNewline, file) && All(NotNewline, hash)
    requires forall i | 0 <= i < |chunks| :: Sendable(chunks[i])
    ensures ParseRequest(RequestText(file, chunks, hash, factor)) == Request(file, hash, factor, chunks)
  {
    hide AfterTag, TagValue, ParseChunks, ReadInt, ChunkText, Sendable, PrintInt, SplitLines, NonEmpty, All;
    var texts := ChunkTexts(chunks);
    var lines, count := RequestLines(file, chunks, hash, factor), PrintInt(factor);
    RequestLinesAreLines(file, chunks, hash, factor);
    SplitJoinedLines(lines);
    var unhashed := ["REPLICAS=" + count] + texts;
    var untimed := ["HASH=" + hash] + unhashed;
    assert "TTL=" + "3600" == "TTL=3600" && lines[1..] == ["TTL=3600"] + untimed;
    StripTag("TTL=", "3600", untimed);
    StripTag("HASH=", hash, unhashed);
    StripTag("REPLICAS=", count, texts);
    ReadIntIs("", factor, "");
    assert "" + count + "" == count;
    ParseChunkTexts(chunks);
  }
}
