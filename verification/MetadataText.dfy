/** The text form of the metadata store: what `persist_locked` writes and what
    `load_from_disk` makes of it, for any order in which the hash map emits its files. */
module MetadataText {
  import opened Basics
  import opened Text
  import opened Metadata

  // ---- writing

  function HashLine(name: string, hash: string): string { name + Spaced(["HASH=" + hash]) }

  function ReplicasLine(name: string, count: int): string { name + Spaced(["REPLICAS=" + PrintInt(count)]) }

  function ChunkLine(name: string, r: ChunkRecord): string {
    name + Spaced([PrintInt(r.chunkId), r.server, r.path, r.checksum, PrintInt(r.replicaCount)])
  }

  function ChunkLines(name: string, chunks: seq<ChunkRecord>): seq<string> {
    seq(|chunks|, i requires 0 <= i < |chunks| => ChunkLine(name, chunks[i]))
  }

  function FileLines(name: string, rec: FileRecord): seq<string> {
    (if rec.fileHash == "" then [] else [HashLine(name, rec.fileHash)]) +
    (if rec.replicaCount <= 0 then [] else [ReplicasLine(name, rec.replicaCount)]) +
    ChunkLines(name, rec.chunks)
  }

  /** The lines of a file, written out. */
  lemma LineFormats(name: string, hash: string, count: int, r: ChunkRecord)
    requires hash != "" && count > 0
    ensures FileLines(name, FileRecord(hash, count, [r])) ==
      [name + " HASH=" + hash,
       name + " REPLICAS=" + PrintInt(count),
       name + " " + PrintInt(r.chunkId) + " " + r.server + " " + r.path + " " + r.checksum + " " +
         PrintInt(r.replicaCount)]
  {
    hide PrintInt;
    SpacedOne("HASH=" + hash);
    SpacedOne("REPLICAS=" + PrintInt(count));
    SpacedFive(PrintInt(r.chunkId), r.server, r.path, r.checksum, PrintInt(r.replicaCount));
    hide Spaced;
    assert name + (" " + ("HASH=" + hash)) == name + " HASH=" + hash;
    assert name + (" " + ("REPLICAS=" + PrintInt(count))) == name + " REPLICAS=" + PrintInt(count);
    assert ChunkLines(name, [r]) == [ChunkLine(name, r)];
    assert ChunkLine(name, r) == name + " " + PrintInt(r.chunkId) + " " + r.server + " " + r.path + " " +
      r.checksum + " " + PrintInt(r.replicaCount);
  }

  lemma SpacedOne(a: string)
    ensures Spaced([a]) == " " + a
  {}

  lemma SpacedFive(a: string, b: string, c: string, d: string, e: string)
    ensures Spaced([a, b, c, d, e]) == " " + a + " " + b + " " + c + " " + d + " " + e
  {
    assert [a, b, c, d, e][1..] == [b, c, d, e] && [b, c, d, e][1..] == [c, d, e];
    assert [c, d, e][1..] == [d, e] && [d, e][1..] == [e];
    SpacedOne(e);
    assert Spaced([d, e]) == " " + d + Spaced([e]);
    assert Spaced([c, d, e]) == " " + c + Spaced([d, e]);
    assert Spaced([b, c, d, e]) == " " + b + Spaced([c, d, e]);
  }

  function StoreLines(files: Files, order: seq<string>): seq<string>
    requires forall i | 0 <= i < |order| :: order[i] in files
  {
    if order == [] then []
    else StoreLines(files, order[..|order| - 1]) +
         FileLines(order[|order| - 1], files[order[|order| - 1]])
  }

  /** An order in which iteration over the unordered map may visit its keys. */
  ghost predicate IsOrder(order: seq<string>, keys: set<string>) {
    && (forall k :: k in order <==> k in keys)
    && (forall i, j | 0 <= i < j < |order| :: order[i] != order[j])
  }

  function Dump(files: Files, order: seq<string>): string
    requires forall i | 0 <= i < |order| :: order[i] in files
  {
    JoinLines(StoreLines(files, order))
  }

  // ---- reading

  /** `map[name]`, which inserts an empty record when there is none. */
  function Entry(files: Files, name: string): FileRecord {
    if name in files then files[name] else FileRecord("", 0, [])
  }

  function LoadChunk(id: int, ts: seq<string>): ChunkRecord
    requires |ts| >= 2
  {
    var checksum := if |ts| > 2 then ts[2] else "";
    var count := if |ts| > 3 then ReadInt(ts[3]) else None;
    ChunkRecord(id, ts[0], ts[1], checksum, match count case None => 1 case Some((n, _)) => n)
  }

  function LoadTokens(files: Files, ts: seq<string>): Files {
    if |ts| < 2 then files
    else if "HASH=" <= ts[1] then files[ts[0] := Entry(files, ts[0]).(fileHash := ts[1][5..])]
    else if "REPLICAS=" <= ts[1] then
      match ReadInt(ts[1][9..])
      case None => files
      case Some((n, _)) => files[ts[0] := Entry(files, ts[0]).(replicaCount := n)]
    else
      match ReadInt(ts[1])
      case None => files
      case Some((id, _)) =>
        if |ts| < 4 then files
        else
          var e := Entry(files, ts[0]);
          files[ts[0] := e.(chunks := e.chunks + [LoadChunk(id, ts[2..])])]
  }

  function LoadLine(files: Files, line: string): Files { LoadTokens(files, Tokens(line)) }

  function LoadLines(files: Files, lines: seq<string>): Files {
    if lines == [] then files
    else LoadLine(LoadLines(files, lines[..|lines| - 1]), lines[|lines| - 1])
  }

  /** The consistency pass at the end of `load_from_disk`. */
  function Normalized(rec: FileRecord): FileRecord {
    FileRecord(rec.fileHash, FileCount(rec.replicaCount, rec.chunks), Recount(rec.chunks))
  }

  function Load(text: string): Files {
    var raw := LoadLines(map[], SplitLines(text));
    map f | f in raw :: Normalized(raw[f])
  }

  // ---- which stores the text can carry

  ghost predicate WritableChunk(r: ChunkRecord) {
    IsToken(r.server) && IsToken(r.path) && (r.checksum == "" || IsToken(r.checksum))
  }

  /** Names, servers and paths are tokens; hashes are tokens or absent. */
  ghost predicate WritableFile(name: string, rec: FileRecord) {
    && IsToken(name) && (rec.fileHash == "" || IsToken(rec.fileHash))
    && forall i | 0 <= i < |rec.chunks| :: WritableChunk(rec.chunks[i])
  }

  ghost predicate Writable(files: Files) { forall f | f in files :: WritableFile(f, files[f]) }

  predicate LeavesTrace(rec: FileRecord) { rec.fileHash != "" || rec.replicaCount > 0 || rec.chunks != [] }

  /** What one chunk line reads back as: without a checksum, the count takes its place. */
  function ReadBack(r: ChunkRecord): ChunkRecord {
    if r.checksum == "" then r.(checksum := PrintInt(r.replicaCount), replicaCount := 1) else r
  }

  function ReadBackAll(chunks: seq<ChunkRecord>): seq<ChunkRecord> {
    seq(|chunks|, i requires 0 <= i < |chunks| => ReadBack(chunks[i]))
  }

  /** The record that comes back from disk, before the consistency pass. */
  function Reread(rec: FileRecord): FileRecord {
    FileRecord(rec.fileHash, if rec.replicaCount <= 0 then 0 else rec.replicaCount, ReadBackAll(rec.chunks))
  }

  // ---- lines

  lemma {:induction false} LoadLinesConcat(files: Files, a: seq<string>, b: seq<string>)
    ensures LoadLines(files, a + b) == LoadLines(LoadLines(files, a), b)
  {
    hide LoadLine;
    if b == [] {
      assert a + b == a;
    } else {
      var n := |b| - 1;
      assert (a + b)[..|a| + n] == a + b[..n];
      LoadLinesConcat(files, a, b[..n]);
    }
  }

  lemma TokensOfLine(name: string, ws: seq<string>)
    requires IsToken(name) && forall i | 0 <= i < |ws| :: ws[i] == "" || IsToken(ws[i])
    ensures Tokens(name + Spaced(ws)) == [name] + NonEmpty(ws)
  {
    hide Tokens, Spaced, IsToken, NonEmpty;
    SpacedStart(ws);
    TokensCons("", name, Spaced(ws));
    TokensOfSpaced("", ws);
    assert "" + name + Spaced(ws) == name + Spaced(ws);
    assert "" + Spaced(ws) == Spaced(ws);
  }

  lemma TaggedIsToken(tag: string, s: string)
    requires IsToken(tag) && (s == "" || IsToken(s))
    ensures IsToken(tag + s)
  {}

  lemma LoadHashLine(files: Files, name: string, hash: string)
    requires IsToken(name) && IsToken(hash)
    ensures LoadLine(files, HashLine(name, hash)) == files[name := Entry(files, name).(fileHash := hash)]
  {
    hide Tokens;
    TaggedIsToken("HASH=", hash);
    TokensOfLine(name, ["HASH=" + hash]);
    assert NonEmpty(["HASH=" + hash]) == ["HASH=" + hash];
  }

  lemma LoadReplicasLine(files: Files, name: string, count: int)
    requires IsToken(name)
    ensures LoadLine(files, ReplicasLine(name, count)) == files[name := Entry(files, name).(replicaCount := count)]
  {
    hide Tokens, ReadInt;
    PrintIntIsToken(count);
    TaggedIsToken("REPLICAS=", PrintInt(count));
    var word := "REPLICAS=" + PrintInt(count);
    TokensOfLine(name, [word]);
    assert NonEmpty([word]) == [word] && word[0] == 'R';
    ReadIntIs("", count, "");
    assert "" + PrintInt(count) + "" == PrintInt(count) == word[9..];
  }

  lemma LoadChunkLine(files: Files, name: string, r: ChunkRecord)
    requires IsToken(name) && WritableChunk(r)
    ensures LoadLine(files, ChunkLine(name, r)) ==
      files[name := Entry(files, name).(chunks := Entry(files, name).chunks + [ReadBack(r)])]
  {
    hide Tokens, LoadTokens, NonEmpty, PrintInt;
    PrintIntIsToken(r.chunkId);
    PrintIntIsToken(r.replicaCount);
    var id, count := PrintInt(r.chunkId), PrintInt(r.replicaCount);
    TokensOfLine(name, [id, r.server, r.path, r.checksum, count]);
    NonEmptyOfChunk(id, r.server, r.path, r.checksum, count);
    LoadChunkTokens(files, name, r);
  }

  lemma LoadChunkTokens(files: Files, name: string, r: ChunkRecord)
    requires r.server != "" && r.path != ""
    ensures LoadTokens(files, [name] + ([PrintInt(r.chunkId), r.server, r.path] +
              (if r.checksum == "" then [PrintInt(r.replicaCount)] else [r.checksum, PrintInt(r.replicaCount)]))) ==
      files[name := Entry(files, name).(chunks := Entry(files, name).chunks + [ReadBack(r)])]
  {
    hide ReadInt, PrintInt;
    var id, count := PrintInt(r.chunkId), PrintInt(r.replicaCount);
    PrintIntIsToken(r.chunkId);
    ReadIntIs("", r.chunkId, "");
    ReadIntIs("", r.replicaCount, "");
    assert "" + id + "" == id && "" + count + "" == count && IsNumeral(id[0]);
    var tail := if r.checksum == "" then [count] else [r.checksum, count];
    var ts := [name] + ([id, r.server, r.path] + tail);
    assert ts[2..] == [r.server, r.path] + tail;
  }

  lemma NonEmptyOfChunk(id: string, server: string, path: string, checksum: string, count: string)
    requires id != "" && server != "" && path != "" && count != ""
    ensures NonEmpty([id, server, path, checksum, count]) ==
      [id, server, path] + (if checksum == "" then [count] else [checksum, count])
  {
    var ws := [id, server, path, checksum, count];
    assert NonEmpty(ws[4..]) == [count];
    assert NonEmpty(ws[3..]) == if checksum == "" then [count] else [checksum, count];
    assert NonEmpty(ws[2..]) == [path] + NonEmpty(ws[3..]);
    assert NonEmpty(ws[1..]) == [server] + NonEmpty(ws[2..]);
  }

  // ---- files

  lemma {:induction false} LoadChunkLines(files: Files, name: string, chunks: seq<ChunkRecord>)
    requires IsToken(name) && forall i | 0 <= i < |chunks| :: WritableChunk(chunks[i])
    ensures LoadLines(files, ChunkLines(name, chunks)) ==
      if chunks == [] then files
      else files[name := Entry(files, name).(chunks := Entry(files, name).chunks + ReadBackAll(chunks))]
  {
    hide LoadLine, ChunkLine, IsToken;
    if chunks == [] {
      assert ChunkLines(name, chunks) == [];
    } else {
      var n := |chunks| - 1;
      LoadChunkLines(files, name, chunks[..n]);
      LoadChunkLine(LoadLines(files, ChunkLines(name, chunks[..n])), name, chunks[n]);
      assert ChunkLines(name, chunks)[..n] == ChunkLines(name, chunks[..n]);
      assert ReadBackAll(chunks) == ReadBackAll(chunks[..n]) + [ReadBack(chunks[n])];
      var e := Entry(files, name).chunks;
      assert n == 0 ==> e + ReadBackAll(chunks[..n]) == e;
      assert (e + ReadBackAll(chunks[..n])) + [ReadBack(chunks[n])] == e + ReadBackAll(chunks);
    }
  }

  lemma LoadHeadLines(files: Files, name: string, rec: FileRecord, a: seq<string>, b: seq<string>)
    requires WritableFile(name, rec) && name !in files
    requires a == if rec.fileHash == "" then [] else [HashLine(name, rec.fileHash)]
    requires b == if rec.replicaCount <= 0 then [] else [ReplicasLine(name, rec.replicaCount)]
    ensures LoadLines(files, a + b) ==
      if rec.fileHash == "" && rec.replicaCount <= 0 then files else files[name := Reread(rec.(chunks := []))]
  {
    hide LoadLine, HashLine, ReplicasLine, IsToken;
    assert ReadBackAll([]) == [];
    LoadLinesConcat(files, a, b);
    if a != [] {
      LoadHashLine(files, name, rec.fileHash);
      assert a[..0] == [];
    }
    if b != [] {
      LoadReplicasLine(LoadLines(files, a), name, rec.replicaCount);
      assert b[..0] == [];
    }
  }

  lemma LoadFileLines(files: Files, name: string, rec: FileRecord)
    requires WritableFile(name, rec) && name !in files
    ensures LoadLines(files, FileLines(name, rec)) == if LeavesTrace(rec) then files[name := Reread(rec)] else files
  {
    hide LoadLine, LoadLines, HashLine, ReplicasLine, IsToken;
    var a := if rec.fileHash == "" then [] else [HashLine(name, rec.fileHash)];
    var b := if rec.replicaCount <= 0 then [] else [ReplicasLine(name, rec.replicaCount)];
    LoadLinesConcat(files, a + b, ChunkLines(name, rec.chunks));
    LoadHeadLines(files, name, rec, a, b);
    LoadChunkLines(LoadLines(files, a + b), name, rec.chunks);
    assert ReadBackAll([]) == [] && [] + ReadBackAll(rec.chunks) == ReadBackAll(rec.chunks);
  }

  ghost function Survivors(files: Files, order: seq<string>): Files {
    map f | f in files && f in order && LeavesTrace(files[f]) :: Reread(files[f])
  }

  lemma EmptyStoreLoads()
    ensures LoadLines(map[], []) == map[]
  {}

  lemma {:induction false} LoadStoreLines(files: Files, order: seq<string>)
    requires Writable(files) && forall i | 0 <= i < |order| :: order[i] in files
    requires forall i, j | 0 <= i < j < |order| :: order[i] != order[j]
    ensures LoadLines(map[], StoreLines(files, order)) == Survivors(files, order)
  {
    hide LoadLine, LoadLines, FileLines, WritableFile, Reread, LeavesTrace;
    if order == [] {
      EmptyStoreLoads();
    } else {
      var n := |order| - 1;
      var init, name := order[..n], order[n];
      LoadStoreLines(files, init);
      LoadLinesConcat(map[], StoreLines(files, init), FileLines(name, files[name]));
      LoadFileLines(Survivors(files, init), name, files[name]);
      assert order == init + [name] && name !in init;
      assert Survivors(files, order) ==
        if LeavesTrace(files[name]) then Survivors(files, init)[name := Reread(files[name])]
        else Survivors(files, init);
    }
  }

  // ---- the round trip

  lemma LinesAreLines(files: Files, order: seq<string>)
    requires Writable(files) && forall i | 0 <= i < |order| :: order[i] in files
    ensures forall i | 0 <= i < |StoreLines(files, order)| :: All(NotNewline, StoreLines(files, order)[i])
  {
    if order != [] {
      var n := |order| - 1;
      LinesAreLines(files, order[..n]);
      FileLinesAreLines(order[n], files[order[n]]);
    }
  }

  lemma FileLinesAreLines(name: string, rec: FileRecord)
    requires WritableFile(name, rec)
    ensures forall i | 0 <= i < |FileLines(name, rec)| :: All(NotNewline, FileLines(name, rec)[i])
  {
    LineOfTokens(name, ["HASH=" + rec.fileHash]);
    PrintIntIsToken(rec.replicaCount);
    LineOfTokens(name, ["REPLICAS=" + PrintInt(rec.replicaCount)]);
    forall i | 0 <= i < |rec.chunks|
      ensures All(NotNewline, ChunkLines(name, rec.chunks)[i])
    {
      var r := rec.chunks[i];
      PrintIntIsToken(r.chunkId);
      PrintIntIsToken(r.replicaCount);
      LineOfTokens(name, [PrintInt(r.chunkId), r.server, r.path, r.checksum, PrintInt(r.replicaCount)]);
    }
  }

  /** For every store whose fields the text can carry, and every emission order: exactly
      what a restart reads back. */
  lemma LoadOfDump(files: Files, order: seq<string>)
    requires Writable(files) && IsOrder(order, files.Keys)
    ensures Load(Dump(files, order)) == map f | f in files && LeavesTrace(files[f]) :: Normalized(Reread(files[f]))
  {
    hide LoadLine, FileLines, IsToken, Reread, LeavesTrace, Normalized;
    LinesAreLines(files, order);
    SplitJoinedLines(StoreLines(files, order));
    LoadStoreLines(files, order);
  }

  /** The records that a restart gives back unchanged. */
  ghost predicate Durable(rec: FileRecord) {
    && ExactCounts(rec.chunks)
    && (forall i | 0 <= i < |rec.chunks| :: rec.chunks[i].checksum != "")
    && if rec.replicaCount > 0 then true else rec.replicaCount == 0 && rec.chunks == [] && rec.fileHash != ""
  }

  lemma DurableIffReread(rec: FileRecord)
    ensures Durable(rec) <==> LeavesTrace(rec) && Normalized(Reread(rec)) == rec
  {
    var back := ReadBackAll(rec.chunks);
    if Durable(rec) {
      assert back == rec.chunks;
      assert Recount(rec.chunks) == rec.chunks;
    }
    if LeavesTrace(rec) && Normalized(Reread(rec)) == rec {
      RecountIsExact(back);
      assert Recount(back) == rec.chunks;
      forall i | 0 <= i < |rec.chunks|
        ensures rec.chunks[i].checksum != ""
      {
        PrintIntIsToken(rec.chunks[i].replicaCount);
        assert Recount(back)[i].checksum == back[i].checksum;
      }
      if rec.replicaCount <= 0 && rec.chunks != [] {
        CountPositive(back, LeastId(back));
      }
    }
  }

  /** A restart gives the store back exactly when every record is durable: true counts, a
      checksum on every chunk, and a replica count that is written at all. */
  lemma RestartIsIdentity(files: Files, order: seq<string>)
    requires Writable(files) && IsOrder(order, files.Keys)
    ensures Load(Dump(files, order)) == files <==> forall f | f in files :: Durable(files[f])
  {
    hide Durable, LeavesTrace, Normalized, Reread, Load, Dump, IsToken;
    LoadOfDump(files, order);
    var back := map f | f in files && LeavesTrace(files[f]) :: Normalized(Reread(files[f]));
    forall f | f in files
      ensures Durable(files[f]) <==> f in back && back[f] == files[f]
    {
      DurableIffReread(files[f]);
    }
    if forall f | f in files :: Durable(files[f]) {
      assert back == files;
    }
  }
}
