/** The failover procedure as the head server runs it against the store. */
module FailoverRun {
  import opened Basics
  import opened Metadata
  import opened UploadText
  import opened Cluster
  import opened Failover
  import opened MetadataStore

  /** One pass over the records of a chunk: the lost checksum and the first survivor. */
  method ScanRecords(records: seq<ChunkRecord>, dead: string)
    returns (hasDead: bool, checksum: string, source: string, path: string)
    ensures DeadChecksum(records, dead) == if hasDead then Some(checksum) else None
    ensures source == "" <==> Survivor(records, dead) == None
    ensures source != "" ==>
      Survivor(records, dead).value.server == source && Survivor(records, dead).value.path == path
  {
    hasDead, checksum, source, path := false, "", "", "";
    for i := 0 to |records|
      invariant DeadChecksum(records[..i], dead) == if hasDead then Some(checksum) else None
      invariant source == "" <==> Survivor(records[..i], dead) == None
      invariant source != "" ==>
        Survivor(records[..i], dead).value.server == source && Survivor(records[..i], dead).value.path == path
    {
      var r := records[i];
      assert records[..i + 1] == records[..i] + [r];
      assert records[..i + 1][..i] == records[..i];
      SurvivorSnoc(records[..i], r, dead);
      if r.server == dead {
        hasDead, checksum := true, r.checksum;
      } else if source == "" {
        source, path := r.server, r.path;
      }
    }
    assert records[..|records|] == records;
  }

  /** The first healthy server that holds no replica; empty when there is none. */
  method PickTarget(records: seq<ChunkRecord>, healthy: seq<string>) returns (target: string)
    ensures Target(records, healthy) == if target == "" then None else Some(target)
  {
    target := "";
    var i := 0;
    while i < |healthy|
      invariant 0 <= i <= |healthy| && target == "" && Target(records, healthy) == Target(records, healthy[i..])
    {
      var hosts := false;
      var j := 0;
      while !hosts && j < |records|
        invariant 0 <= j <= |records|
        invariant if hosts then Hosts(records, healthy[i]) else forall k | 0 <= k < j :: records[k].server != healthy[i]
      {
        hosts := records[j].server == healthy[i];
        j := j + 1;
      }
      if !hosts {
        target := healthy[i];
        return;
      }
      assert healthy[i..][1..] == healthy[i + 1..];
      i := i + 1;
    }
  }

  /** One chunk of one file: scan, pick a target, copy, and record the new replica. */
  method RepairChunk(file: string, id: int, records: seq<ChunkRecord>, dead: string,
                     healthy: seq<string>, copy: Copier)
    returns (repair: Option<ChunkRecord>)
    requires file != ""
    ensures repair == Repair(file, id, records, dead, healthy, copy)
  {
    hide DeadChecksum, Survivor, Target;
    var hasDead, checksum, source, path := ScanRecords(records, dead);
    if !hasDead || source == "" { return None; }
    var target := PickTarget(records, healthy);
    if target == "" { return None; }
    var stored := copy(file, id, source, path, target);
    if stored.None? { return None; }
    var place := if stored.value != "" then stored.value
                 else "/tmp/chunks/" + target + "_" + ChunkKey(file, id);
    repair := Some(ChunkRecord(id, target, place, checksum, |records|));
  }

  /** All chunks of one file, grouped by id and visited in ascending order. */
  method RepairFile(file: string, chunks: seq<ChunkRecord>, dead: string, healthy: seq<string>, copy: Copier)
    returns (added: seq<ChunkRecord>)
    requires file != ""
    ensures added == Additions(file, chunks, dead, healthy, copy)
  {
    hide Repair, RecordsOf, SortedIds;
    var chunkMap: map<int, seq<ChunkRecord>> := GroupById(chunks);
    var ids := SortedIds(chunks);
    added := [];
    for i := 0 to |ids|
      invariant added == Repairs(file, chunks, ids[..i], dead, healthy, copy)
    {
      SortedIdsMembers(chunks, ids[i]);
      var repair := RepairChunk(file, ids[i], chunkMap[ids[i]], dead, healthy, copy);
      if repair.Some? {
        added := added + [repair.value];
      }
      assert ids[..i + 1][..i] == ids[..i];
    }
    assert ids[..|ids|] == ids;
  }

  /** The records of each chunk id, in order. */
  method GroupById(chunks: seq<ChunkRecord>) returns (groups: map<int, seq<ChunkRecord>>)
    ensures forall id | HasId(chunks, id) :: id in groups && groups[id] == RecordsOf(chunks, id)
  {
    groups := map[];
    for i := 0 to |chunks|
      invariant forall id :: RecordsOf(chunks[..i], id) == if id in groups then groups[id] else []
    {
      var id := chunks[i].chunkId;
      groups := groups[id := (if id in groups then groups[id] else []) + [chunks[i]]];
      assert chunks[..i + 1][..i] == chunks[..i];
    }
    assert chunks[..|chunks|] == chunks;
    forall id | HasId(chunks, id)
      ensures RecordsOf(chunks, id) != []
    {
      RecordsOfContents(chunks, id);
      CountPositive(chunks, id);
    }
  }

  /** `rereplicate_dead_server_chunks`: plan every file, commit the plan, then drop what is
      left of the dead server. */
  method Rereplicate(store: Store, dead: string, addresses: seq<string>, health: seq<Health>, copy: Copier)
    modifies store
    ensures store.files == AfterFailover(old(store.files), dead, HealthyTargets(addresses, health, dead), copy)
    ensures old(store.OnDisk()) ==> store.OnDisk()
    ensures HealthyTargets(addresses, health, dead) != [] ==> store.OnDisk()
  {
    hide Additions, DeleteServer, SwapServer, HealthyTargets;
    if store.files == map[] {
      NothingToFailOver(dead, HealthyTargets(addresses, health, dead), copy);
      store.DeleteServerMetadata(dead);
      return;
    }
    var healthy := FindTargets(addresses, health, dead);
    if healthy == [] { return; }
    var files := store.files;
    var todo, updates := files.Keys, map[];
    while todo != {}
      invariant todo <= files.Keys && store.files == files
      invariant forall f | f in updates :: f in files && f !in todo && updates[f] != []
      invariant forall f | f in files && f !in todo ::
        Additions(f, files[f].chunks, dead, healthy, copy) == if f in updates then updates[f] else []
      decreases |todo|
    {
      var f :| f in todo;
      todo := todo - {f};
      if f == "" || files[f].chunks == [] {
        NothingToAdd(f, files[f].chunks, dead, healthy, copy);
      } else {
        var added := RepairFile(f, files[f].chunks, dead, healthy, copy);
        if added != [] {
          updates := updates[f := added];
        }
      }
    }
    assert updates == Updates(files, dead, healthy, copy);
    if updates != map[] {
      store.AtomicReplaceServerChunks(dead, updates);
    } else {
      assert ReplaceServer(files, dead, updates) == files;
    }
    store.DeleteServerMetadata(dead);
  }

  lemma NothingToFailOver(dead: string, healthy: seq<string>, copy: Copier)
    ensures AfterFailover(map[], dead, healthy, copy) == map[] == DeleteServer(map[], dead)
  {}

  lemma {:induction false} NoRepairs(file: string, chunks: seq<ChunkRecord>, ids: seq<int>, dead: string,
                                     healthy: seq<string>, copy: Copier)
    requires file == ""
    ensures Repairs(file, chunks, ids, dead, healthy, copy) == []
  {
    if ids != [] {
      NoRepairs(file, chunks, ids[..|ids| - 1], dead, healthy, copy);
    }
  }

  lemma NothingToAdd(file: string, chunks: seq<ChunkRecord>, dead: string, healthy: seq<string>, copy: Copier)
    requires file == "" || chunks == []
    ensures Additions(file, chunks, dead, healthy, copy) == []
  {
    if file == "" {
      NoRepairs(file, chunks, SortedIds(chunks), dead, healthy, copy);
    }
  }
}
