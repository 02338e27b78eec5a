/** The on-disk metadata store of redis_handler.hpp: the records of every file, how each
    operation edits them, and the two invariants every operation keeps. */
module Metadata {
  import opened Basics

  datatype ChunkRecord = ChunkRecord(
    chunkId: int, server: string, path: string, checksum: string, replicaCount: int)

  datatype FileRecord = FileRecord(fileHash: string, replicaCount: int, chunks: seq<ChunkRecord>)

  type Files = map<string, FileRecord>

  // ---- counting replicas

  /** Number of records of one chunk. */
  function CountOf(chunks: seq<ChunkRecord>, id: int): nat {
    if chunks == [] then 0
    else CountOf(chunks[..|chunks| - 1], id) + (if chunks[|chunks| - 1].chunkId == id then 1 else 0)
  }

  predicate HasId(chunks: seq<ChunkRecord>, id: int) { exists i :: 0 <= i < |chunks| && chunks[i].chunkId == id }

  function LeastId(chunks: seq<ChunkRecord>): (id: int)
    requires chunks != []
    ensures HasId(chunks, id) && forall r | r in chunks :: id <= r.chunkId
  {
    if |chunks| == 1 then chunks[0].chunkId
    else
      var rest := LeastId(chunks[1..]);
      assert exists i :: 0 <= i < |chunks[1..]| && chunks[1..][i].chunkId == rest;
      if chunks[0].chunkId <= rest then chunks[0].chunkId else rest
  }

  /** The replicas of the chunk with the smallest id. */
  function FirstCount(chunks: seq<ChunkRecord>): nat
    requires chunks != []
  {
    CountOf(chunks, LeastId(chunks))
  }

  function Recount(chunks: seq<ChunkRecord>): seq<ChunkRecord> {
    seq(|chunks|, i requires 0 <= i < |chunks| =>
      chunks[i].(replicaCount := CountOf(chunks, chunks[i].chunkId)))
  }

  /** Counts that the caller left at zero or below are filled in; others are kept. */
  function FillCounts(chunks: seq<ChunkRecord>): seq<ChunkRecord> {
    seq(|chunks|, i requires 0 <= i < |chunks| =>
      if chunks[i].replicaCount <= 0 then chunks[i].(replicaCount := CountOf(chunks, chunks[i].chunkId))
      else chunks[i])
  }

  function FileCount(given: int, chunks: seq<ChunkRecord>): int {
    if given <= 0 && chunks != [] then FirstCount(chunks) else given
  }

  /** `remove_if` on the server name. */
  function Without(chunks: seq<ChunkRecord>, server: string): seq<ChunkRecord> {
    if chunks == [] then []
    else Without(chunks[..|chunks| - 1], server) +
         (if chunks[|chunks| - 1].server == server then [] else [chunks[|chunks| - 1]])
  }

  // ---- the operations

  function Replaced(files: Files, file: string, hash: string, chunks: seq<ChunkRecord>, count: int): Files {
    files[file := FileRecord(hash, FileCount(count, chunks), FillCounts(chunks))]
  }

  function WithoutServer(rec: FileRecord, server: string): FileRecord {
    rec.(chunks := Recount(Without(rec.chunks, server)))
  }

  function DeleteServer(files: Files, server: string): Files {
    map f | f in files :: WithoutServer(files[f], server)
  }

  function SwapServer(rec: FileRecord, dead: string, added: seq<ChunkRecord>): FileRecord {
    var chunks := Without(rec.chunks, dead) + added;
    FileRecord(rec.fileHash, if chunks == [] then rec.replicaCount else FirstCount(chunks), Recount(chunks))
  }

  function ReplaceServer(files: Files, dead: string, updates: map<string, seq<ChunkRecord>>): Files {
    map f | f in files :: if f in updates then SwapServer(files[f], dead, updates[f]) else files[f]
  }

  // ---- what every operation keeps

  /** Every record carries the true number of replicas of its chunk. */
  ghost predicate ExactCounts(chunks: seq<ChunkRecord>) {
    forall r | r in chunks :: r.replicaCount == CountOf(chunks, r.chunkId)
  }

  /** No chunk has two records on one server. */
  ghost predicate DistinctPlacement(chunks: seq<ChunkRecord>) {
    forall i, j | 0 <= i < j < |chunks| ::
      chunks[i].chunkId == chunks[j].chunkId ==> chunks[i].server != chunks[j].server
  }

  ghost predicate GoodFile(rec: FileRecord) { ExactCounts(rec.chunks) && DistinctPlacement(rec.chunks) }

  ghost predicate Good(files: Files) { forall f | f in files :: GoodFile(files[f]) }

  // ---- lemmas about counting

  lemma {:induction false} CountByIds(a: seq<ChunkRecord>, b: seq<ChunkRecord>, id: int)
    requires |a| == |b| && forall i | 0 <= i < |a| :: a[i].chunkId == b[i].chunkId
    ensures CountOf(a, id) == CountOf(b, id)
  {
    if a != [] {
      CountByIds(a[..|a| - 1], b[..|b| - 1], id);
    }
  }

  lemma {:induction false} CountConcat(a: seq<ChunkRecord>, b: seq<ChunkRecord>, id: int)
    ensures CountOf(a + b, id) == CountOf(a, id) + CountOf(b, id)
  {
    if b == [] {
      assert a + b == a;
    } else {
      var n := |b| - 1;
      assert (a + b)[..|a| + n] == a + b[..n];
      CountConcat(a, b[..n], id);
    }
  }

  lemma {:induction false} CountPositive(chunks: seq<ChunkRecord>, id: int)
    ensures CountOf(chunks, id) > 0 <==> HasId(chunks, id)
  {
    if chunks != [] {
      var init, last := chunks[..|chunks| - 1], chunks[|chunks| - 1];
      CountPositive(init, id);
      if HasId(init, id) {
        var i :| 0 <= i < |init| && init[i].chunkId == id;
        assert chunks[i].chunkId == id;
      }
      if HasId(chunks, id) && last.chunkId != id {
        var i :| 0 <= i < |chunks| && chunks[i].chunkId == id;
        assert init[i].chunkId == id;
      }
    }
  }

  ghost function IndicesOf(chunks: seq<ChunkRecord>, id: int): set<int> {
    set i | 0 <= i < |chunks| && chunks[i].chunkId == id
  }

  /** The count of a chunk is the number of its records. */
  lemma {:induction false} CountIsSize(chunks: seq<ChunkRecord>, id: int)
    ensures CountOf(chunks, id) == |IndicesOf(chunks, id)|
  {
    if chunks == [] {
      assert IndicesOf(chunks, id) == {};
    } else {
      var n := |chunks| - 1;
      CountIsSize(chunks[..n], id);
      assert IndicesOf(chunks, id) ==
        IndicesOf(chunks[..n], id) + (if chunks[n].chunkId == id then {n} else {});
    }
  }

  lemma RecountIsExact(chunks: seq<ChunkRecord>)
    ensures ExactCounts(Recount(chunks))
  {
    var out := Recount(chunks);
    forall r | r in out
      ensures r.replicaCount == CountOf(out, r.chunkId)
    {
      CountByIds(chunks, out, r.chunkId);
    }
  }

  lemma RecountKeepsPlacement(chunks: seq<ChunkRecord>)
    ensures DistinctPlacement(Recount(chunks)) <==> DistinctPlacement(chunks)
  {
    var out := Recount(chunks);
    assert forall i | 0 <= i < |out| :: out[i].chunkId == chunks[i].chunkId && out[i].server == chunks[i].server;
  }

  lemma {:induction false} WithoutContents(chunks: seq<ChunkRecord>, server: string)
    ensures forall r :: r in Without(chunks, server) <==> r in chunks && r.server != server
  {
    if chunks != [] {
      var n := |chunks| - 1;
      WithoutContents(chunks[..n], server);
      assert chunks == chunks[..n] + [chunks[n]];
    }
  }

  /** The records that stay, all of them and in their order. */
  lemma {:induction false} WithoutInOrder(chunks: seq<ChunkRecord>, server: string) returns (from: seq<int>)
    ensures Picks(from, chunks, (r: ChunkRecord) => r.server != server, Without(chunks, server))
  {
    from := [];
    if chunks != [] {
      var n := |chunks| - 1;
      var init, last := chunks[..n], chunks[n];
      assert chunks == init + [last];
      from := WithoutInOrder(init, server);
      PicksSnoc(from, init, last, (r: ChunkRecord) => r.server != server, Without(init, server));
      assert Without(init, server) + [] == Without(init, server);
      hide Picks, Without;
      if last.server != server { from := from + [n]; }
    }
  }

  lemma {:induction false} WithoutKeepsPlacement(chunks: seq<ChunkRecord>, server: string)
    requires DistinctPlacement(chunks)
    ensures DistinctPlacement(Without(chunks, server))
  {
    if chunks != [] {
      var n := |chunks| - 1;
      var init := chunks[..n];
      WithoutKeepsPlacement(init, server);
      WithoutContents(init, server);
      forall r | r in Without(init, server)
        ensures r.chunkId == chunks[n].chunkId ==> r.server != chunks[n].server
      {
        assert r in init;
      }
    }
  }

  lemma CountSnoc(chunks: seq<ChunkRecord>, last: ChunkRecord, id: int)
    ensures CountOf(chunks + [last], id) == CountOf(chunks, id) + (if last.chunkId == id then 1 else 0)
  {
    assert (chunks + [last])[..|chunks|] == chunks;
  }

  /** With distinct placement, dropping a server costs each chunk it held one replica. */
  lemma {:induction false} CountWithout(chunks: seq<ChunkRecord>, server: string, id: int)
    requires DistinctPlacement(chunks)
    ensures CountOf(Without(chunks, server), id) ==
      CountOf(chunks, id) - (if Holds(chunks, id, server) then 1 else 0)
  {
    if chunks != [] {
      var n := |chunks| - 1;
      var init, last := chunks[..n], chunks[n];
      var kept := Without(init, server);
      assert chunks == init + [last];
      CountWithout(init, server, id);
      CountSnoc(kept, last, id);
      if last.server == server && last.chunkId == id {
        assert last in chunks;
        assert !Holds(init, id, server);
      } else {
        assert Holds(chunks, id, server) <==> Holds(init, id, server);
      }
      assert last.server == server ==> kept + [] == kept;
    }
  }

  /** Some record places the chunk on the server. */
  ghost predicate Holds(chunks: seq<ChunkRecord>, id: int, server: string) {
    exists r :: r in chunks && r.chunkId == id && r.server == server
  }

  // ---- the operations keep both invariants

  lemma RecountTwice(chunks: seq<ChunkRecord>)
    ensures Recount(Recount(chunks)) == Recount(chunks)
  {
    forall i | 0 <= i < |chunks|
      ensures CountOf(Recount(chunks), chunks[i].chunkId) == CountOf(chunks, chunks[i].chunkId)
    {
      CountByIds(chunks, Recount(chunks), chunks[i].chunkId);
    }
  }

  lemma {:induction false} WithoutAbsent(chunks: seq<ChunkRecord>, server: string)
    requires forall r | r in chunks :: r.server != server
    ensures Without(chunks, server) == chunks
  {
    if chunks != [] {
      var n := |chunks| - 1;
      assert chunks[n] in chunks && forall r | r in chunks[..n] :: r in chunks;
      WithoutAbsent(chunks[..n], server);
      assert chunks == chunks[..n] + [chunks[n]];
    }
  }

  /** Filling keeps the counts that are positive and gives the others the true number of
      records, so that no count is left below one. */
  lemma FilledIs(chunks: seq<ChunkRecord>, i: nat)
    requires i < |chunks|
    ensures var r := FillCounts(chunks)[i];
      && |FillCounts(chunks)| == |chunks| && r == chunks[i].(replicaCount := r.replicaCount) && r.replicaCount > 0
      && r.replicaCount ==
           if chunks[i].replicaCount > 0 then chunks[i].replicaCount else |IndicesOf(chunks, r.chunkId)|
  {
    CountIsSize(chunks, chunks[i].chunkId);
    CountPositive(chunks, chunks[i].chunkId);
  }

  lemma ReplacedIsGood(files: Files, file: string, hash: string, chunks: seq<ChunkRecord>, count: int)
    requires Good(files) && ExactCounts(chunks) && DistinctPlacement(chunks)
    ensures Good(Replaced(files, file, hash, chunks, count))
    ensures Replaced(files, file, hash, chunks, count)[file].chunks == chunks
  {
    forall i | 0 <= i < |chunks|
      ensures FillCounts(chunks)[i] == chunks[i]
    {
      CountPositive(chunks, chunks[i].chunkId);
    }
    assert FillCounts(chunks) == chunks;
  }

  lemma DeleteServerIsGood(files: Files, server: string)
    requires Good(files)
    ensures Good(DeleteServer(files, server))
  {
    forall f | f in files
      ensures GoodFile(DeleteServer(files, server)[f])
    {
      var kept := Without(files[f].chunks, server);
      WithoutKeepsPlacement(files[f].chunks, server);
      RecountIsExact(kept);
      RecountKeepsPlacement(kept);
    }
  }
}
