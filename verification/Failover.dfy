/** Re-replication after a cluster server dies: `rereplicate_dead_server_chunks`. The copy
    of a chunk between servers is an oracle that may fail. */
module Failover {
  import opened Basics
  import opened Text
  import opened Metadata
  import opened UploadText

  /** (file, chunk, source server, source path, target server) to the path reported by the
      target, or `None` when reading or writing the chunk failed. */
  type Copier = (string, int, string, string, string) -> Option<string>

  // ---- one chunk

  /** `chunk_map[id]`: the records of one chunk, in order. */
  function RecordsOf(chunks: seq<ChunkRecord>, id: int): seq<ChunkRecord> {
    if chunks == [] then []
    else RecordsOf(chunks[..|chunks| - 1], id) +
         (if chunks[|chunks| - 1].chunkId == id then [chunks[|chunks| - 1]] else [])
  }

  /** Checksum of the last dead replica, when there is one. */
  function DeadChecksum(records: seq<ChunkRecord>, dead: string): Option<string> {
    if records == [] then None
    else
      var last := records[|records| - 1];
      if last.server == dead then Some(last.checksum) else DeadChecksum(records[..|records| - 1], dead)
  }

  /** The first surviving replica with a usable address. */
  function Survivor(records: seq<ChunkRecord>, dead: string): Option<ChunkRecord> {
    if records == [] then None
    else if records[0].server != dead && records[0].server != "" then Some(records[0])
    else Survivor(records[1..], dead)
  }

  predicate Hosts(records: seq<ChunkRecord>, server: string) {
    exists i :: 0 <= i < |records| && records[i].server == server
  }

  /** The first healthy server that does not already hold the chunk. */
  function Target(records: seq<ChunkRecord>, healthy: seq<string>): Option<string> {
    if healthy == [] then None
    else if Hosts(records, healthy[0]) then Target(records, healthy[1..])
    else if healthy[0] == "" then None
    else Some(healthy[0])
  }

  /** The record a successful copy adds for one chunk. */
  function Repair(file: string, id: int, records: seq<ChunkRecord>, dead: string,
                  healthy: seq<string>, copy: Copier): Option<ChunkRecord>
  {
    var checksum, source, target := DeadChecksum(records, dead), Survivor(records, dead), Target(records, healthy);
    // the metadata query answers nothing for the empty file name
    if file == "" || checksum.None? || source.None? || target.None? then None
    else
      match copy(file, id, source.value.server, source.value.path, target.value)
      case None => None
      case Some(path) =>
        var stored := if path != "" then path else "/tmp/chunks/" + target.value + "_" + ChunkKey(file, id);
        Some(ChunkRecord(id, target.value, stored, checksum.value, |records|))
  }

  // ---- one file

  function DropId(chunks: seq<ChunkRecord>, id: int): (rest: seq<ChunkRecord>)
    ensures |rest| <= |chunks|
    ensures forall r :: r in rest <==> r in chunks && r.chunkId != id
    ensures HasId(chunks, id) ==> |rest| < |chunks|
  {
    if chunks == [] then []
    else
      var n := |chunks| - 1;
      assert HasId(chunks, id) && chunks[n].chunkId != id ==> HasId(chunks[..n], id) by {
        if HasId(chunks, id) && chunks[n].chunkId != id {
          var i :| 0 <= i < |chunks| && chunks[i].chunkId == id;
          assert chunks[..n][i].chunkId == id;
        }
      }
      assert chunks == chunks[..n] + [chunks[n]];
      DropId(chunks[..n], id) + (if chunks[n].chunkId == id then [] else [chunks[n]])
  }

  /** The chunk ids in the order in which the ordered map lists them. */
  function SortedIds(chunks: seq<ChunkRecord>): seq<int>
    decreases |chunks|
  {
    if chunks == [] then []
    else [LeastId(chunks)] + SortedIds(DropId(chunks, LeastId(chunks)))
  }

  lemma HasIdSplit(chunks: seq<ChunkRecord>, least: int, id: int)
    ensures HasId(DropId(chunks, least), id) <==> HasId(chunks, id) && id != least
  {
    var rest := DropId(chunks, least);
    if HasId(chunks, id) && id != least {
      var i :| 0 <= i < |chunks| && chunks[i].chunkId == id;
      var k :| 0 <= k < |rest| && rest[k] == chunks[i];
      assert rest[k].chunkId == id;
    }
    if HasId(rest, id) {
      var i :| 0 <= i < |rest| && rest[i].chunkId == id;
      assert rest[i] in rest;
      var k :| 0 <= k < |chunks| && chunks[k] == rest[i];
      assert chunks[k].chunkId == id;
    }
  }

  lemma {:induction false} SortedIdsMembers(chunks: seq<ChunkRecord>, id: int)
    ensures id in SortedIds(chunks) <==> HasId(chunks, id)
    decreases |chunks|
  {
    hide DropId;
    if chunks != [] {
      var least := LeastId(chunks);
      SortedIdsMembers(DropId(chunks, least), id);
      HasIdSplit(chunks, least, id);
    }
  }

  ghost predicate Ascending(s: seq<int>) { forall i, j | 0 <= i < j < |s| :: s[i] < s[j] }

  lemma {:induction false} SortedIdsAscend(chunks: seq<ChunkRecord>)
    ensures Ascending(SortedIds(chunks))
    decreases |chunks|
  {
    hide DropId;
    if chunks != [] {
      var least := LeastId(chunks);
      var rest := DropId(chunks, least);
      SortedIdsAscend(rest);
      var tail := SortedIds(rest);
      forall k | 0 <= k < |tail|
        ensures least < tail[k]
      {
        SortedIdsMembers(rest, tail[k]);
        HasIdSplit(chunks, least, tail[k]);
        var i :| 0 <= i < |chunks| && chunks[i].chunkId == tail[k];
        assert chunks[i] in chunks;
      }
      assert SortedIds(chunks) == [least] + tail;
    }
  }

  /** The repairs of the listed chunks that succeed. */
  function Repairs(file: string, chunks: seq<ChunkRecord>, ids: seq<int>, dead: string,
                   healthy: seq<string>, copy: Copier): seq<ChunkRecord>
  {
    if ids == [] then []
    else
      var id := ids[|ids| - 1];
      Repairs(file, chunks, ids[..|ids| - 1], dead, healthy, copy) +
      match Repair(file, id, RecordsOf(chunks, id), dead, healthy, copy)
      case None => []
      case Some(r) => [r]
  }

  function Additions(file: string, chunks: seq<ChunkRecord>, dead: string,
                     healthy: seq<string>, copy: Copier): seq<ChunkRecord>
  {
    Repairs(file, chunks, SortedIds(chunks), dead, healthy, copy)
  }

  // ---- the whole store

  function Updates(files: Files, dead: string, healthy: seq<string>, copy: Copier): map<string, seq<ChunkRecord>> {
    map f | f in files && Additions(f, files[f].chunks, dead, healthy, copy) != [] ::
      Additions(f, files[f].chunks, dead, healthy, copy)
  }

  /** The store after failover: unchanged when no healthy server is left. */
  function AfterFailover(files: Files, dead: string, healthy: seq<string>, copy: Copier): Files {
    if healthy == [] then files
    else DeleteServer(ReplaceServer(files, dead, Updates(files, dead, healthy, copy)), dead)
  }

  // ---- what a repair is

  lemma {:induction false} RecordsOfContents(chunks: seq<ChunkRecord>, id: int)
    ensures forall r :: r in RecordsOf(chunks, id) <==> r in chunks && r.chunkId == id
    ensures |RecordsOf(chunks, id)| == CountOf(chunks, id)
  {
    if chunks != [] {
      var n := |chunks| - 1;
      RecordsOfContents(chunks[..n], id);
      assert chunks == chunks[..n] + [chunks[n]];
    }
  }

  lemma TargetIsFree(records: seq<ChunkRecord>, healthy: seq<string>)
    ensures var t := Target(records, healthy);
      t.Some? ==> t.value in healthy && t.value != "" && !Hosts(records, t.value)
  {}

  lemma DeadChecksumIff(records: seq<ChunkRecord>, dead: string)
    ensures DeadChecksum(records, dead).Some? <==> Hosts(records, dead)
    ensures DeadChecksum(records, dead).Some? ==>
      exists r :: r in records && r.server == dead && r.checksum == DeadChecksum(records, dead).value
  {
    if records != [] {
      var n := |records| - 1;
      var init := records[..n];
      DeadChecksumIff(init, dead);
      assert records == init + [records[n]];
      if records[n].server == dead {
        assert records[n] in records;
      } else {
        assert forall i | 0 <= i < n :: init[i] == records[i];
        if Hosts(records, dead) {
          var i :| 0 <= i < |records| && records[i].server == dead;
          assert init[i].server == dead;
        }
      }
    }
  }

  lemma HostsIsHolds(chunks: seq<ChunkRecord>, id: int, server: string)
    ensures Hosts(RecordsOf(chunks, id), server) <==> Holds(chunks, id, server)
  {
    var records := RecordsOf(chunks, id);
    RecordsOfContents(chunks, id);
    if Hosts(records, server) {
      var i :| 0 <= i < |records| && records[i].server == server;
      assert records[i] in records;
    }
    if Holds(chunks, id, server) {
      var r :| r in chunks && r.chunkId == id && r.server == server;
      assert r in records;
    }
  }

  lemma SurvivorSnoc(records: seq<ChunkRecord>, last: ChunkRecord, dead: string)
    ensures Survivor(records + [last], dead) ==
      if Survivor(records, dead).Some? then Survivor(records, dead)
      else if last.server != dead && last.server != "" then Some(last) else None
  {
    if records == [] {
      assert records + [last] == [last];
    } else {
      assert (records + [last])[1..] == records[1..] + [last];
      SurvivorSnoc(records[1..], last, dead);
    }
  }

  /** A repair goes to a healthy server that did not hold the chunk, with the checksum of a
      replica that was lost. */
  lemma RepairTarget(file: string, chunks: seq<ChunkRecord>, id: int, dead: string, healthy: seq<string>, copy: Copier)
    requires Repair(file, id, RecordsOf(chunks, id), dead, healthy, copy).Some?
    ensures var r := Repair(file, id, RecordsOf(chunks, id), dead, healthy, copy).value;
      && r.chunkId == id && r.server in healthy && !Holds(chunks, id, r.server)
      && Holds(chunks, id, dead)
      && exists lost :: lost in chunks && lost.chunkId == id && lost.server == dead && lost.checksum == r.checksum
  {
    hide RecordsOf, Target, DeadChecksum, Survivor;
    var records := RecordsOf(chunks, id);
    var r := Repair(file, id, records, dead, healthy, copy).value;
    TargetIsFree(records, healthy);
    DeadChecksumIff(records, dead);
    HostsIsHolds(chunks, id, r.server);
    HostsIsHolds(chunks, id, dead);
    RecordsOfContents(chunks, id);
  }

  lemma {:induction false} RepairsContents(file: string, chunks: seq<ChunkRecord>, ids: seq<int>, dead: string,
                                           healthy: seq<string>, copy: Copier, r: ChunkRecord)
    ensures r in Repairs(file, chunks, ids, dead, healthy, copy) <==>
      r.chunkId in ids && Repair(file, r.chunkId, RecordsOf(chunks, r.chunkId), dead, healthy, copy) == Some(r)
  {
    if ids != [] {
      var n := |ids| - 1;
      RepairsContents(file, chunks, ids[..n], dead, healthy, copy, r);
      assert ids == ids[..n] + [ids[n]];
      if Repair(file, ids[n], RecordsOf(chunks, ids[n]), dead, healthy, copy).Some? {
        RepairTarget(file, chunks, ids[n], dead, healthy, copy);
      }
    }
  }

  lemma {:induction false} RepairsCount(file: string, chunks: seq<ChunkRecord>, ids: seq<int>, dead: string,
                                        healthy: seq<string>, copy: Copier, id: int)
    requires Ascending(ids)
    ensures CountOf(Repairs(file, chunks, ids, dead, healthy, copy), id) ==
      if id in ids && Repair(file, id, RecordsOf(chunks, id), dead, healthy, copy).Some? then 1 else 0
  {
    if ids != [] {
      var n := |ids| - 1;
      var init := Repairs(file, chunks, ids[..n], dead, healthy, copy);
      RepairsCount(file, chunks, ids[..n], dead, healthy, copy, id);
      assert ids == ids[..n] + [ids[n]] && ids[n] !in ids[..n];
      var repair := Repair(file, ids[n], RecordsOf(chunks, ids[n]), dead, healthy, copy);
      if repair.Some? {
        RepairTarget(file, chunks, ids[n], dead, healthy, copy);
        CountSnoc(init, repair.value, id);
      } else {
        assert init + [] == init;
      }
    }
  }

  /** The repair of one chunk of a file. */
  function RepairOf(file: string, chunks: seq<ChunkRecord>, id: int, dead: string,
                    healthy: seq<string>, copy: Copier): Option<ChunkRecord>
  {
    Repair(file, id, RecordsOf(chunks, id), dead, healthy, copy)
  }

  lemma AdditionsAre(file: string, chunks: seq<ChunkRecord>, dead: string, healthy: seq<string>, copy: Copier)
    requires dead !in healthy
    ensures var added := Additions(file, chunks, dead, healthy, copy);
      && (forall r :: r in added <==> RepairOf(file, chunks, r.chunkId, dead, healthy, copy) == Some(r))
      && (forall id :: CountOf(added, id) == if RepairOf(file, chunks, id, dead, healthy, copy).Some? then 1 else 0)
      && forall r | r in added :: r.server != dead
  {
    hide RecordsOf, Repair, Repairs, SortedIds;
    var ids := SortedIds(chunks);
    SortedIdsAscend(chunks);
    forall id
      ensures RepairOf(file, chunks, id, dead, healthy, copy).Some? ==> id in ids
    {
      SortedIdsMembers(chunks, id);
      if RepairOf(file, chunks, id, dead, healthy, copy).Some? {
        RepairTarget(file, chunks, id, dead, healthy, copy);
        var r :| r in chunks && r.chunkId == id && r.server == dead;
        var i :| 0 <= i < |chunks| && chunks[i] == r;
      }
    }
    forall r
      ensures r in Additions(file, chunks, dead, healthy, copy) <==>
        RepairOf(file, chunks, r.chunkId, dead, healthy, copy) == Some(r)
    {
      RepairsContents(file, chunks, ids, dead, healthy, copy, r);
    }
    forall id
      ensures CountOf(Additions(file, chunks, dead, healthy, copy), id) ==
        if RepairOf(file, chunks, id, dead, healthy, copy).Some? then 1 else 0
    {
      RepairsCount(file, chunks, ids, dead, healthy, copy, id);
    }
    forall r | r in Additions(file, chunks, dead, healthy, copy)
      ensures r.server != dead
    {
      RepairTarget(file, chunks, r.chunkId, dead, healthy, copy);
    }
  }

  // ---- when a repair is made

  predicate Survives(r: ChunkRecord, id: int, dead: string) { r.chunkId == id && r.server != dead && r.server != "" }

  /** The first record of the chunk on another server. */
  ghost predicate FirstSurvivor(chunks: seq<ChunkRecord>, id: int, dead: string, i: int) {
    0 <= i < |chunks| && Survives(chunks[i], id, dead) && forall j | 0 <= j < i :: !Survives(chunks[j], id, dead)
  }

  /** The first healthy server that does not hold the chunk. */
  ghost predicate FirstFree(chunks: seq<ChunkRecord>, id: int, healthy: seq<string>, j: int) {
    0 <= j < |healthy| && !Holds(chunks, id, healthy[j]) && forall k | 0 <= k < j :: Holds(chunks, id, healthy[k])
  }

  /** The chunk is recorded on the dead server and on another one, some healthy server does
      not hold it, and copying it from the first survivor to the first free server succeeds. */
  ghost predicate Copied(file: string, chunks: seq<ChunkRecord>, id: int, dead: string,
                         healthy: seq<string>, copy: Copier)
  {
    && file != "" && Holds(chunks, id, dead)
    && exists i, j ::
         && FirstSurvivor(chunks, id, dead, i) && FirstFree(chunks, id, healthy, j) && healthy[j] != ""
         && copy(file, id, chunks[i].server, chunks[i].path, healthy[j]).Some?
  }

  lemma {:induction false} SurvivorIsFirst(chunks: seq<ChunkRecord>, id: int, dead: string) returns (i: int)
    ensures var s := Survivor(RecordsOf(chunks, id), dead);
      && (s.Some? ==> FirstSurvivor(chunks, id, dead, i) && chunks[i] == s.value)
      && (s.None? ==> NoneSurvives(chunks, id, dead))
  {
    hide Survivor, FirstSurvivor, NoneSurvives;
    i := 0;
    if chunks == [] {
      NoSurvivor(id, dead);
    } else {
      var init, last := chunks[..|chunks| - 1], chunks[|chunks| - 1];
      i := SurvivorIsFirst(init, id, dead);
      SurvivorSnoc(RecordsOf(init, id), last, dead);
      assert RecordsOf(init, id) + [] == RecordsOf(init, id);
      assert chunks == init + [last];
      FirstSurvivorSnoc(init, last, id, dead, i);
      if Survivor(RecordsOf(init, id), dead).None? && Survives(last, id, dead) { i := |init|; }
    }
  }

  ghost predicate NoneSurvives(chunks: seq<ChunkRecord>, id: int, dead: string) {
    forall k | 0 <= k < |chunks| :: !Survives(chunks[k], id, dead)
  }

  lemma {:induction false} FirstSurvivorSnoc(init: seq<ChunkRecord>, last: ChunkRecord, id: int, dead: string, i: int)
    ensures var chunks := init + [last];
      && (FirstSurvivor(init, id, dead, i) ==> FirstSurvivor(chunks, id, dead, i) && chunks[i] == init[i])
      && (NoneSurvives(init, id, dead) && Survives(last, id, dead) ==> FirstSurvivor(chunks, id, dead, |init|))
      && (NoneSurvives(init, id, dead) && !Survives(last, id, dead) ==> NoneSurvives(chunks, id, dead))
  {
    hide Survives;
    var chunks := init + [last];
    assert forall k | 0 <= k < |init| :: chunks[k] == init[k];
  }

  lemma NoSurvivor(id: int, dead: string)
    ensures Survivor([], dead) == None && NoneSurvives([], id, dead)
  {}

  lemma {:induction false} TargetIsFirst(chunks: seq<ChunkRecord>, id: int, healthy: seq<string>) returns (j: int)
    ensures var t := Target(RecordsOf(chunks, id), healthy);
      && (t.Some? ==> FirstFree(chunks, id, healthy, j) && healthy[j] == t.value != "")
      && (t.None? ==> forall k | FirstFree(chunks, id, healthy, k) :: healthy[k] == "")
  {
    hide RecordsOf, Hosts, Holds;
    j := 0;
    if healthy != [] {
      HostsIsHolds(chunks, id, healthy[0]);
      if Holds(chunks, id, healthy[0]) {
        var rest := healthy[1..];
        var k := TargetIsFirst(chunks, id, rest);
        j := k + 1;
        assert forall m | 0 < m < |healthy| :: healthy[m] == rest[m - 1];
        forall m | FirstFree(chunks, id, healthy, m) ensures FirstFree(chunks, id, rest, m - 1) {}
      } else {
        assert forall m | FirstFree(chunks, id, healthy, m) :: m == 0;
      }
    }
  }

  predicate Lost(r: ChunkRecord, id: int, dead: string) { r.chunkId == id && r.server == dead }

  /** The last record of the chunk on the dead server. */
  ghost predicate LastLost(chunks: seq<ChunkRecord>, id: int, dead: string, k: int) {
    0 <= k < |chunks| && Lost(chunks[k], id, dead) && forall m | k < m < |chunks| :: !Lost(chunks[m], id, dead)
  }

  lemma {:induction false} ChecksumIsLast(chunks: seq<ChunkRecord>, id: int, dead: string) returns (k: int)
    ensures var c := DeadChecksum(RecordsOf(chunks, id), dead);
      && (c.Some? ==> LastLost(chunks, id, dead, k) && chunks[k].checksum == c.value)
      && (c.None? ==> forall m | 0 <= m < |chunks| :: !Lost(chunks[m], id, dead))
  {
    k := 0;
    if chunks != [] {
      var init, last := chunks[..|chunks| - 1], chunks[|chunks| - 1];
      k := ChecksumIsLast(init, id, dead);
      var records := RecordsOf(init, id);
      assert (records + [last])[..|records|] == records && records + [] == records;
      assert forall m | 0 <= m < |init| :: init[m] == chunks[m];
      if Lost(last, id, dead) { k := |init|; }
    }
  }

  /** The record that copying the chunk from record `i` to the j-th healthy server adds, when
      record `k` is the one that was lost. */
  ghost predicate CopiedAs(file: string, chunks: seq<ChunkRecord>, id: int, healthy: seq<string>, copy: Copier,
                           i: nat, j: nat, k: nat, r: ChunkRecord)
    requires i < |chunks| && j < |healthy| && k < |chunks|
  {
    && r.chunkId == id && r.server == healthy[j] && r.checksum == chunks[k].checksum
    && r.replicaCount == CountOf(chunks, id)
    && match copy(file, id, chunks[i].server, chunks[i].path, healthy[j])
       case None => false
       case Some("") => r.path == "/tmp/chunks/" + healthy[j] + "_" + file + "_chunk_" + PrintInt(id)
       case Some(path) => r.path == path
  }

  /** The record describes a copy from the first survivor to the first free server, with the
      checksum of the last lost replica. */
  ghost predicate Repaired(file: string, chunks: seq<ChunkRecord>, id: int, dead: string,
                           healthy: seq<string>, copy: Copier, r: ChunkRecord)
  {
    file != "" && exists i, j, k ::
      && FirstSurvivor(chunks, id, dead, i) && FirstFree(chunks, id, healthy, j) && LastLost(chunks, id, dead, k)
      && healthy[j] != "" && CopiedAs(file, chunks, id, healthy, copy, i, j, k, r)
  }

  lemma RepairPath(file: string, id: int, target: string)
    ensures "/tmp/chunks/" + target + "_" + ChunkKey(file, id) ==
            "/tmp/chunks/" + target + "_" + file + "_chunk_" + PrintInt(id)
  {
    hide PrintInt;
    assert "/tmp/chunks/" + target + "_" + (file + "_chunk_" + PrintInt(id)) ==
           "/tmp/chunks/" + target + "_" + file + "_chunk_" + PrintInt(id);
  }

  /** What a repair is, on the records and the copies alone: source, target, path, checksum
      and count. */
  lemma RepairIs(file: string, chunks: seq<ChunkRecord>, id: int, dead: string, healthy: seq<string>, copy: Copier,
                 r: ChunkRecord)
    ensures RepairOf(file, chunks, id, dead, healthy, copy) == Some(r) <==>
      Repaired(file, chunks, id, dead, healthy, copy, r)
  {
    hide RecordsOf, DeadChecksum, Survivor, Target, Holds, ChunkKey, CountOf, PrintInt, Lost, Survives;
    var i := SurvivorIsFirst(chunks, id, dead);
    var j := TargetIsFirst(chunks, id, healthy);
    var k := ChecksumIsLast(chunks, id, dead);
    RecordsOfContents(chunks, id);
    if Target(RecordsOf(chunks, id), healthy).Some? { RepairPath(file, id, healthy[j]); }
    assert NoneSurvives(chunks, id, dead) ==> forall m :: !FirstSurvivor(chunks, id, dead, m);
    assert forall m | FirstSurvivor(chunks, id, dead, m) && FirstSurvivor(chunks, id, dead, i) :: m == i;
    assert forall m | FirstFree(chunks, id, healthy, m) && FirstFree(chunks, id, healthy, j) :: m == j;
    assert forall m | LastLost(chunks, id, dead, m) && LastLost(chunks, id, dead, k) :: m == k;
  }

  /** A repair is made exactly when the copy could be attempted and succeeded. */
  lemma RepairIffCopied(file: string, chunks: seq<ChunkRecord>, id: int, dead: string,
                        healthy: seq<string>, copy: Copier)
    ensures RepairOf(file, chunks, id, dead, healthy, copy).Some? <==> Copied(file, chunks, id, dead, healthy, copy)
  {
    hide RecordsOf, DeadChecksum, Survivor, Target, Holds, ChunkKey;
    var records := RecordsOf(chunks, id);
    DeadChecksumIff(records, dead);
    HostsIsHolds(chunks, id, dead);
    var i := SurvivorIsFirst(chunks, id, dead);
    assert NoneSurvives(chunks, id, dead) ==> forall k :: !FirstSurvivor(chunks, id, dead, k);
    var j := TargetIsFirst(chunks, id, healthy);
    assert forall k | FirstSurvivor(chunks, id, dead, k) && FirstSurvivor(chunks, id, dead, i) :: k == i;
    assert forall k | FirstFree(chunks, id, healthy, k) && FirstFree(chunks, id, healthy, j) :: k == j;
  }

  // ---- conservation

  ghost predicate OncePerChunk(added: seq<ChunkRecord>) {
    forall i, j | 0 <= i < j < |added| :: added[i].chunkId != added[j].chunkId
  }

  lemma {:induction false} OnceFromCounts(added: seq<ChunkRecord>)
    requires forall id :: CountOf(added, id) <= 1
    ensures OncePerChunk(added)
  {
    if added != [] {
      var n := |added| - 1;
      assert forall id :: CountOf(added[..n], id) <= CountOf(added, id);
      OnceFromCounts(added[..n]);
      forall i | 0 <= i < n
        ensures added[i].chunkId != added[n].chunkId
      {
        assert added[..n][i] == added[i];
        CountPositive(added[..n], added[i].chunkId);
      }
    }
  }

  /** Adding records, one per chunk, to records that place every chunk apart keeps them
      apart exactly when no added record repeats a placement. */
  lemma PlacementOfUnion(kept: seq<ChunkRecord>, added: seq<ChunkRecord>)
    requires DistinctPlacement(kept) && OncePerChunk(added)
    ensures DistinctPlacement(kept + added) <==> forall r | r in added :: !Holds(kept, r.chunkId, r.server)
  {
    var all := kept + added;
    if DistinctPlacement(all) {
      forall r, k | r in added && k in kept
        ensures k.chunkId == r.chunkId ==> k.server != r.server
      {
        var i :| 0 <= i < |kept| && kept[i] == k;
        var j :| 0 <= j < |added| && added[j] == r;
        assert all[i] == k && all[|kept| + j] == r;
      }
    }
    if forall r | r in added :: !Holds(kept, r.chunkId, r.server) {
      forall i, j | 0 <= i < j < |all| && all[i].chunkId == all[j].chunkId
        ensures all[i].server != all[j].server
      {
        if i < |kept| <= j {
          assert all[i] in kept && all[j] in added;
        }
      }
    }
  }

  lemma LeastByIds(a: seq<ChunkRecord>, b: seq<ChunkRecord>)
    requires a != [] && |a| == |b| && forall i | 0 <= i < |a| :: a[i].chunkId == b[i].chunkId
    ensures LeastId(a) <= LeastId(b)
  {
    var j :| 0 <= j < |b| && b[j].chunkId == LeastId(b);
    assert a[j] in a;
  }

  lemma FirstCountKept(all: seq<ChunkRecord>)
    requires all != []
    ensures FirstCount(Recount(all)) == FirstCount(all)
  {
    var out := Recount(all);
    LeastByIds(all, out);
    LeastByIds(out, all);
    CountByIds(all, out, LeastId(all));
    hide CountOf, Recount;
  }

  lemma SomethingCopied(file: string, chunks: seq<ChunkRecord>, dead: string, healthy: seq<string>, copy: Copier)
    requires dead !in healthy
    ensures Additions(file, chunks, dead, healthy, copy) != [] <==>
      exists id :: Copied(file, chunks, id, dead, healthy, copy)
  {
    hide Additions, Copied, RepairOf;
    var added := Additions(file, chunks, dead, healthy, copy);
    AdditionsAre(file, chunks, dead, healthy, copy);
    if added != [] {
      assert added[0] in added;
      RepairIffCopied(file, chunks, added[0].chunkId, dead, healthy, copy);
    }
    forall id | Copied(file, chunks, id, dead, healthy, copy)
      ensures added != []
    {
      RepairIffCopied(file, chunks, id, dead, healthy, copy);
    }
  }

  /** One file after failover: the surviving records and the repairs, recounted. */
  lemma FileAfterFailover(files: Files, file: string, dead: string, healthy: seq<string>, copy: Copier)
    requires file in files && healthy != [] && dead !in healthy
    ensures var chunks := files[file].chunks;
      AfterFailover(files, dead, healthy, copy)[file].chunks ==
        Recount(Without(chunks, dead) + Additions(file, chunks, dead, healthy, copy))
    ensures FileRecounted(file, files[file], AfterFailover(files, dead, healthy, copy)[file], dead, healthy, copy)
  {
    hide Additions, FirstCount, Copied, RepairOf;
    var chunks := files[file].chunks;
    var added := Additions(file, chunks, dead, healthy, copy);
    var kept := Without(chunks, dead);
    AdditionsAre(file, chunks, dead, healthy, copy);
    SomethingCopied(file, chunks, dead, healthy, copy);
    if added != [] { FirstCountKept(kept + added); }
    WithoutContents(chunks, dead);
    if added == [] {
      assert kept + added == kept;
    } else {
      var all := Recount(kept + added);
      forall r | r in all
        ensures r.server != dead
      {
        var i :| 0 <= i < |all| && all[i] == r;
        assert (kept + added)[i] in kept || (kept + added)[i] in added;
      }
      WithoutAbsent(all, dead);
      RecountTwice(kept + added);
    }
  }

  /** What failover does to the records of one file. */
  ghost predicate RecordsConserved(file: string, before: seq<ChunkRecord>, after: seq<ChunkRecord>,
                                   dead: string, healthy: seq<string>, copy: Copier)
  {
    // no record names the dead server
    && (forall r | r in after :: r.server != dead)
    // every surviving record is kept, with the new count of its chunk
    && (forall r | r in before && r.server != dead :: r.(replicaCount := CountOf(after, r.chunkId)) in after)
    // every other record is the repair of a chunk that lost a replica
    && (forall r | r in after ::
          || (exists o :: o in before && o.server != dead && r == o.(replicaCount := r.replicaCount))
          || (r.server in healthy && !Holds(before, r.chunkId, r.server) && Holds(before, r.chunkId, dead) &&
              exists o :: Repaired(file, before, r.chunkId, dead, healthy, copy, o) &&
                          r == o.(replicaCount := r.replicaCount)))
    // every repair is there, with the new count of its chunk
    && (forall o: ChunkRecord | Repaired(file, before, o.chunkId, dead, healthy, copy, o) ::
          o.(replicaCount := CountOf(after, o.chunkId)) in after)
  }

  /** A file with a repaired chunk is recounted: its own count is that of its smallest chunk. */
  ghost predicate FileRecounted(file: string, before: FileRecord, after: FileRecord,
                                dead: string, healthy: seq<string>, copy: Copier)
  {
    if exists id :: Copied(file, before.chunks, id, dead, healthy, copy)
    then after.chunks != [] && after.replicaCount == FirstCount(after.chunks)
    else after.replicaCount == before.replicaCount
  }

  /** A chunk loses one replica with the server and gains one with a successful copy; its
      count is unchanged exactly when it was unaffected or the copy succeeded. */
  ghost predicate CountsConserved(file: string, before: seq<ChunkRecord>, after: seq<ChunkRecord>,
                                  dead: string, healthy: seq<string>, copy: Copier)
  {
    && (forall id :: CountOf(after, id) == CountOf(before, id)
          - (if Holds(before, id, dead) then 1 else 0)
          + (if Copied(file, before, id, dead, healthy, copy) then 1 else 0))
    && (forall id :: CountOf(after, id) == CountOf(before, id) <==>
          (Holds(before, id, dead) ==> Copied(file, before, id, dead, healthy, copy)))
  }

  lemma RecountedMembers(all: seq<ChunkRecord>)
    ensures forall r | r in all :: r.(replicaCount := CountOf(Recount(all), r.chunkId)) in Recount(all)
    ensures forall r | r in Recount(all) :: exists o :: o in all && r == o.(replicaCount := r.replicaCount)
  {
    var out := Recount(all);
    forall r | r in all
      ensures r.(replicaCount := CountOf(out, r.chunkId)) in out
    {
      var i :| 0 <= i < |all| && all[i] == r;
      CountByIds(all, out, r.chunkId);
      assert out[i] == r.(replicaCount := CountOf(out, r.chunkId));
    }
    forall r | r in out
      ensures exists o :: o in all && r == o.(replicaCount := r.replicaCount)
    {
      var i :| 0 <= i < |out| && out[i] == r;
      assert all[i] in all && r == all[i].(replicaCount := r.replicaCount);
    }
  }

  lemma ConservedRecords(file: string, chunks: seq<ChunkRecord>, dead: string, healthy: seq<string>, copy: Copier)
    requires DistinctPlacement(chunks) && dead !in healthy
    ensures var all := Without(chunks, dead) + Additions(file, chunks, dead, healthy, copy);
      DistinctPlacement(all) && RecordsConserved(file, chunks, Recount(all), dead, healthy, copy)
  {
    hide Additions, RepairOf, Recount, Without, Repaired;
    var kept, added := Without(chunks, dead), Additions(file, chunks, dead, healthy, copy);
    AdditionsAre(file, chunks, dead, healthy, copy);
    WithoutContents(chunks, dead);
    forall r | r in added
      ensures r.server in healthy && !Holds(chunks, r.chunkId, r.server) && Holds(chunks, r.chunkId, dead)
    {
      RepairedFrom(file, chunks, r.chunkId, dead, healthy, copy);
    }
    forall r
      ensures r in added <==> Repaired(file, chunks, r.chunkId, dead, healthy, copy, r)
    {
      RepairIs(file, chunks, r.chunkId, dead, healthy, copy, r);
    }
    RecountedMembers(kept + added);
    assert DistinctPlacement(kept + added) by {
      WithoutKeepsPlacement(chunks, dead);
      OnceFromCounts(added);
      PlacementOfUnion(kept, added);
    }
  }

  lemma ConservedCounts(file: string, chunks: seq<ChunkRecord>, dead: string, healthy: seq<string>, copy: Copier)
    requires DistinctPlacement(chunks) && dead !in healthy
    ensures var all := Without(chunks, dead) + Additions(file, chunks, dead, healthy, copy);
      CountsConserved(file, chunks, Recount(all), dead, healthy, copy)
  {
    hide Additions, RepairOf, Recount, Without, Copied;
    var kept, added := Without(chunks, dead), Additions(file, chunks, dead, healthy, copy);
    AdditionsAre(file, chunks, dead, healthy, copy);
    forall id
      ensures CountOf(Recount(kept + added), id) == CountOf(chunks, id)
        - (if Holds(chunks, id, dead) then 1 else 0)
        + (if Copied(file, chunks, id, dead, healthy, copy) then 1 else 0)
      ensures Copied(file, chunks, id, dead, healthy, copy) ==> Holds(chunks, id, dead)
    {
      RepairIffCopied(file, chunks, id, dead, healthy, copy);
      CountConcat(kept, added, id);
      CountWithout(chunks, dead, id);
      RecountCount(kept + added, id);
      if RepairOf(file, chunks, id, dead, healthy, copy).Some? {
        RepairedFrom(file, chunks, id, dead, healthy, copy);
      }
    }
  }

  lemma RecountCount(all: seq<ChunkRecord>, id: int)
    ensures CountOf(Recount(all), id) == CountOf(all, id)
  {
    CountByIds(all, Recount(all), id);
  }

  lemma RepairedFrom(file: string, chunks: seq<ChunkRecord>, id: int, dead: string, healthy: seq<string>, copy: Copier)
    requires RepairOf(file, chunks, id, dead, healthy, copy).Some?
    ensures var r := RepairOf(file, chunks, id, dead, healthy, copy).value;
      r.chunkId == id && r.server in healthy && !Holds(chunks, id, r.server) && Holds(chunks, id, dead)
  {
    RepairTarget(file, chunks, id, dead, healthy, copy);
  }

  /** Failover conserves replicas, whatever the copies do: unless no healthy server is left,
      in which case nothing changes. Both store invariants survive. */
  lemma FailoverConserves(files: Files, dead: string, healthy: seq<string>, copy: Copier)
    requires Good(files) && dead !in healthy
    ensures var after := AfterFailover(files, dead, healthy, copy);
      && Good(after) && after.Keys == files.Keys
      && (forall f | f in files :: after[f].fileHash == files[f].fileHash)
      && (healthy == [] ==> after == files)
      && (healthy != [] ==> forall f | f in files ::
            && RecordsConserved(f, files[f].chunks, after[f].chunks, dead, healthy, copy)
            && FileRecounted(f, files[f], after[f], dead, healthy, copy)
            && CountsConserved(f, files[f].chunks, after[f].chunks, dead, healthy, copy))
  {
    hide RecordsConserved, CountsConserved, FileRecounted, Additions, Recount, Without, ExactCounts, DistinctPlacement;
    var after := AfterFailover(files, dead, healthy, copy);
    if healthy != [] {
      forall f | f in files
        ensures GoodFile(after[f]) && RecordsConserved(f, files[f].chunks, after[f].chunks, dead, healthy, copy)
        ensures FileRecounted(f, files[f], after[f], dead, healthy, copy)
        ensures CountsConserved(f, files[f].chunks, after[f].chunks, dead, healthy, copy)
      {
        var all := Without(files[f].chunks, dead) + Additions(f, files[f].chunks, dead, healthy, copy);
        FileAfterFailover(files, f, dead, healthy, copy);
        ConservedRecords(f, files[f].chunks, dead, healthy, copy);
        ConservedCounts(f, files[f].chunks, dead, healthy, copy);
        RecountIsExact(all);
        RecountKeepsPlacement(all);
      }
    }
  }

  /** A plan is made from a snapshot and committed later. Committed to records that changed
      in between, it keeps placements apart exactly when no planned server has meanwhile
      received that chunk. */
  lemma LateCommit(now: FileRecord, dead: string, added: seq<ChunkRecord>)
    requires GoodFile(now) && OncePerChunk(added) && forall r | r in added :: r.server != dead
    ensures GoodFile(SwapServer(now, dead, added)) <==> forall r | r in added :: !Holds(now.chunks, r.chunkId, r.server)
  {
    var kept := Without(now.chunks, dead);
    WithoutKeepsPlacement(now.chunks, dead);
    WithoutContents(now.chunks, dead);
    PlacementOfUnion(kept, added);
    RecountIsExact(kept + added);
    RecountKeepsPlacement(kept + added);
    forall r | r in added
      ensures Holds(kept, r.chunkId, r.server) <==> Holds(now.chunks, r.chunkId, r.server)
    {}
  }
}
