/** The store object itself: the map, the file behind it, and the loops that edit them. */
module MetadataStore {
  import opened Basics
  import opened Text
  import opened Metadata
  import opened MetadataText
  import opened UploadText

  // ---- loops over the records of one file

  /** How many records each chunk id has. */
  method Tally(chunks: seq<ChunkRecord>) returns (counts: map<int, int>)
    ensures forall id :: id in counts <==> HasId(chunks, id)
    ensures forall id | id in counts :: counts[id] == CountOf(chunks, id)
  {
    counts := map[];
    for i := 0 to |chunks|
      invariant forall id :: CountOf(chunks[..i], id) == if id in counts then counts[id] else 0
      invariant forall id | id in counts :: counts[id] > 0
    {
      var id := chunks[i].chunkId;
      counts := counts[id := (if id in counts then counts[id] else 0) + 1];
      assert chunks[..i + 1][..i] == chunks[..i];
    }
    assert chunks[..|chunks|] == chunks;
    forall id
      ensures id in counts <==> HasId(chunks, id)
    {
      CountPositive(chunks, id);
    }
  }

  /** The count of the first id in order. */
  method FirstOf(counts: map<int, int>, ghost chunks: seq<ChunkRecord>) returns (n: int)
    requires chunks != []
    requires forall id :: id in counts <==> HasId(chunks, id)
    requires forall id | id in counts :: counts[id] == CountOf(chunks, id)
    ensures n == FirstCount(chunks)
  {
    ghost var least := LeastId(chunks);
    assert forall id | id in counts.Keys :: least <= id by {
      forall id | id in counts.Keys
        ensures least <= id
      {
        var i :| 0 <= i < |chunks| && chunks[i].chunkId == id;
        assert chunks[i] in chunks;
      }
    }
    var first :| first in counts.Keys && forall id | id in counts.Keys :: first <= id;
    n := counts[first];
  }

  method RecountRecords(chunks: seq<ChunkRecord>, counts: map<int, int>) returns (out: seq<ChunkRecord>)
    requires forall id :: id in counts <==> HasId(chunks, id)
    requires forall id | id in counts :: counts[id] == CountOf(chunks, id)
    ensures out == Recount(chunks)
  {
    out := chunks;
    for i := 0 to |chunks|
      invariant |out| == |chunks| && out[i..] == chunks[i..]
      invariant forall j | 0 <= j < i :: out[j] == Recount(chunks)[j]
    {
      assert out[i] == out[i..][0] && HasId(chunks, chunks[i].chunkId);
      out := out[i := out[i].(replicaCount := counts[out[i].chunkId])];
    }
  }

  method FillRecords(chunks: seq<ChunkRecord>, counts: map<int, int>) returns (out: seq<ChunkRecord>)
    requires forall id :: id in counts <==> HasId(chunks, id)
    requires forall id | id in counts :: counts[id] == CountOf(chunks, id)
    ensures out == FillCounts(chunks)
  {
    out := chunks;
    for i := 0 to |chunks|
      invariant |out| == |chunks| && out[i..] == chunks[i..]
      invariant forall j | 0 <= j < i :: out[j] == FillCounts(chunks)[j]
    {
      assert out[i] == out[i..][0] && HasId(chunks, chunks[i].chunkId);
      if out[i].replicaCount <= 0 {
        out := out[i := out[i].(replicaCount := counts[out[i].chunkId])];
      }
    }
  }

  method RemoveServer(chunks: seq<ChunkRecord>, server: string) returns (kept: seq<ChunkRecord>)
    ensures kept == Without(chunks, server)
  {
    kept := [];
    for i := 0 to |chunks|
      invariant kept == Without(chunks[..i], server)
    {
      if chunks[i].server != server {
        kept := kept + [chunks[i]];
      }
      assert chunks[..i + 1][..i] == chunks[..i];
    }
    assert chunks[..|chunks|] == chunks;
  }

  method NormalizeRecord(rec: FileRecord) returns (out: FileRecord)
    ensures out == Normalized(rec)
  {
    hide FirstCount, Recount;
    var counts := Tally(rec.chunks);
    var chunks := RecountRecords(rec.chunks, counts);
    var count := rec.replicaCount;
    if count <= 0 && rec.chunks != [] {
      count := FirstOf(counts, rec.chunks);
    }
    out := FileRecord(rec.fileHash, count, chunks);
  }

  method SwapRecord(rec: FileRecord, dead: string, added: seq<ChunkRecord>) returns (out: FileRecord)
    ensures out == SwapServer(rec, dead, added)
  {
    hide FirstCount, Recount, Without;
    var kept := RemoveServer(rec.chunks, dead);
    var chunks := kept + added;
    var counts := Tally(chunks);
    var recounted := RecountRecords(chunks, counts);
    var count := rec.replicaCount;
    if chunks != [] {
      count := FirstOf(counts, chunks);
    }
    out := FileRecord(rec.fileHash, count, recounted);
  }

  method ShrinkRecord(rec: FileRecord, server: string) returns (out: FileRecord)
    ensures out == WithoutServer(rec, server)
  {
    hide Recount, Without;
    var kept := RemoveServer(rec.chunks, server);
    var counts := Tally(kept);
    var recounted := RecountRecords(kept, counts);
    out := rec.(chunks := recounted);
  }

  // ---- loading and writing text

  /** `load_from_disk`: the line loop, then the consistency pass over every file. */
  method LoadFromDisk(text: string) returns (files: Files)
    ensures files == Load(text)
  {
    hide LoadLine, Normalized, SplitLines;
    var lines := SplitLines(text);
    var raw: Files := map[];
    for i := 0 to |lines|
      invariant raw == LoadLines(map[], lines[..i])
    {
      raw := LoadLine(raw, lines[i]);
      assert lines[..i + 1][..i] == lines[..i];
    }
    assert lines[..|lines|] == lines;
    files := raw;
    var todo := raw.Keys;
    while todo != {}
      invariant todo <= raw.Keys == files.Keys
      invariant forall f | f in raw :: files[f] == if f in todo then raw[f] else Normalized(raw[f])
      decreases |todo|
    {
      var f :| f in todo;
      todo := todo - {f};
      var rec := NormalizeRecord(files[f]);
      files := files[f := rec];
    }
  }

  method NonEmptyLines(lines: seq<string>) returns (raw: seq<string>)
    ensures raw == NonEmpty(lines)
  {
    raw := [];
    for i := 0 to |lines|
      invariant raw == NonEmpty(lines[..i])
    {
      assert lines[..i + 1] == lines[..i] + [lines[i]];
      NonEmptySnoc(lines[..i], lines[i]);
      if lines[i] != "" {
        raw := raw + [lines[i]];
      }
    }
    assert lines[..|lines|] == lines;
  }

  method ReadChunkLines(lines: seq<string>) returns (chunks: seq<ChunkRecord>)
    ensures chunks == ParseChunks(lines)
  {
    hide ParseChunk;
    chunks := [];
    for i := 0 to |lines|
      invariant chunks == ParseChunks(lines[..i])
    {
      var parsed := ParseChunk(lines[i]);
      if parsed.Some? {
        chunks := chunks + [parsed.value];
      }
      assert lines[..i + 1][..i] == lines[..i];
    }
    assert lines[..|lines|] == lines;
  }

  /** The parsing half of `create_entry`: keep the non-empty lines, strip the three
      optional headers, collect the chunk lines. */
  method ReadRequest(text: string) returns (r: Request)
    ensures r == ParseRequest(text)
  {
    hide ParseChunks, NonEmpty, SplitLines, ReadNumber;
    var lines := SplitLines(text);
    if lines == [] { return Request("", "", 0, []); }
    var raw := NonEmptyLines(lines[1..]);
    if raw != [] && "TTL=" <= raw[0] {
      raw := raw[1..];
    }
    var hash := "";
    if raw != [] && "HASH=" <= raw[0] {
      hash := raw[0][5..];
      raw := raw[1..];
    }
    var count := 0;
    if raw != [] && "REPLICAS=" <= raw[0] {
      var number := ReadInt(raw[0][9..]);
      if number.Some? {
        count := number.value.0;
      }
      raw := raw[1..];
    } else {
      NoNumber();
    }
    var chunks := ReadChunkLines(raw);
    r := Request(lines[0], hash, count, chunks);
  }

  lemma NoNumber()
    ensures ReadInt("") == None
  {}

  lemma NonEmptySnoc(ws: seq<string>, w: string)
    ensures NonEmpty(ws + [w]) == NonEmpty(ws) + (if w == "" then [] else [w])
  {
    if ws == [] {
      assert ws + [w] == [w];
    } else {
      assert (ws + [w])[1..] == ws[1..] + [w];
      NonEmptySnoc(ws[1..], w);
    }
  }

  method FileText(name: string, rec: FileRecord) returns (text: string)
    ensures text == JoinLines(FileLines(name, rec))
  {
    hide HashLine, ReplicasLine, ChunkLine, JoinLines;
    var lines := [];
    if rec.fileHash != "" {
      lines := lines + [HashLine(name, rec.fileHash)];
    }
    if rec.replicaCount > 0 {
      lines := lines + [ReplicasLine(name, rec.replicaCount)];
    }
    ghost var head := lines;
    for i := 0 to |rec.chunks|
      invariant lines == head + ChunkLines(name, rec.chunks)[..i]
    {
      lines := lines + [ChunkLine(name, rec.chunks[i])];
    }
    assert lines == FileLines(name, rec);
    text := JoinLines(lines);
  }

  class Store {
    var files: Files
    var disk: string

    /** The file on disk holds the current map, in some iteration order. */
    ghost predicate OnDisk()
      reads this
    {
      exists order :: IsOrder(order, files.Keys) && disk == Dump(files, order)
    }

    constructor (text: string)
      ensures files == Load(text) && disk == text
    {
      disk := text;
      new;
      files := LoadFromDisk(text);
    }

    /** `persist_locked`: iteration order over the hash map is not determined. */
    method PersistLocked()
      modifies this`disk
      ensures OnDisk()
    {
      hide FileLines;
      var out := "";
      var todo := files.Keys;
      ghost var order := [];
      while todo != {}
        invariant todo <= files.Keys && (forall k :: k in order <==> k in files && k !in todo)
        invariant forall i, j | 0 <= i < j < |order| :: order[i] != order[j]
        invariant out == Dump(files, order)
        decreases |todo|
      {
        var name :| name in todo;
        todo := todo - {name};
        var text := FileText(name, files[name]);
        ghost var before := order;
        order := order + [name];
        assert order[..|order| - 1] == before;
        JoinLinesConcat(StoreLines(files, before), FileLines(name, files[name]));
        out := out + text;
      }
      disk := out;
      assert IsOrder(order, files.Keys);
    }

    method ReplaceFileChunks(file: string, hash: string, chunks: seq<ChunkRecord>, count: int)
      modifies this
      ensures files == Replaced(old(files), file, hash, chunks, count) && OnDisk()
    {
      var counts := Tally(chunks);
      var filled := FillRecords(chunks, counts);
      var fileCount := count;
      if count <= 0 && chunks != [] {
        fileCount := FirstOf(counts, chunks);
      }
      files := files[file := FileRecord(hash, fileCount, filled)];
      PersistLocked();
    }

    method RemoveFile(file: string)
      modifies this
      ensures files == old(files) - {file} && OnDisk()
    {
      files := files - {file};
      PersistLocked();
    }

    method AtomicReplaceServerChunks(dead: string, updates: map<string, seq<ChunkRecord>>)
      modifies this
      ensures files == ReplaceServer(old(files), dead, updates) && OnDisk()
    {
      hide SwapServer, OnDisk;
      var todo := updates.Keys;
      while todo != {}
        invariant todo <= updates.Keys && files.Keys == old(files).Keys
        invariant forall f | f in files ::
          files[f] == (if f in updates && f !in todo then SwapServer(old(files)[f], dead, updates[f])
                       else old(files)[f])
        decreases |todo|
      {
        var f :| f in todo;
        todo := todo - {f};
        if f in files {
          var rec := SwapRecord(files[f], dead, updates[f]);
          files := files[f := rec];
        }
      }
      PersistLocked();
    }

    method DeleteServerMetadata(server: string)
      modifies this
      ensures files == DeleteServer(old(files), server) && OnDisk()
    {
      hide WithoutServer, OnDisk;
      var todo := files.Keys;
      while todo != {}
        invariant todo <= files.Keys == old(files).Keys
        invariant forall f | f in files ::
          files[f] == if f in todo then old(files)[f] else WithoutServer(old(files)[f], server)
        decreases |todo|
      {
        var f :| f in todo;
        todo := todo - {f};
        var rec := ShrinkRecord(files[f], server);
        files := files[f := rec];
      }
      PersistLocked();
    }

    /** `create_entry`: the request replaces the record of the file it names. */
    method CreateEntry(request: string)
      modifies this
      ensures var r := ParseRequest(request); files == Replaced(old(files), r.file, r.hash, r.chunks, r.count)
      ensures OnDisk()
    {
      var r := ReadRequest(request);
      var counts := Tally(r.chunks);
      var filled := FillRecords(r.chunks, counts);
      var count := r.count;
      if count <= 0 && r.chunks != [] {
        count := FirstOf(counts, r.chunks);
      }
      FilledTwice(r.chunks, r.count);
      ReplaceFileChunks(r.file, r.hash, filled, count);
    }
  }

  /** `create_entry` fills the counts and `replace_file_chunks` does so again. */
  lemma FilledTwice(chunks: seq<ChunkRecord>, count: int)
    ensures FillCounts(FillCounts(chunks)) == FillCounts(chunks)
    ensures FileCount(FileCount(count, chunks), FillCounts(chunks)) == FileCount(count, chunks)
  {
    forall i | 0 <= i < |chunks|
      ensures FillCounts(chunks)[i].replicaCount > 0
    {
      CountPositive(chunks, chunks[i].chunkId);
    }
    if chunks != [] {
      CountPositive(chunks, LeastId(chunks));
    }
  }
}
