/** Whole runs of the metadata store: uploads, failovers, server deletions, file removals
    and restarts, in any order. */
module MetadataRuns {
  import opened Basics
  import opened Text
  import opened Sha256Spec
  import opened Metadata
  import opened MetadataText
  import opened UploadText
  import opened Failover
  import opened Upload
  import opened Cluster
  import Placement

  /** A failover in progress: what it plans to add, file by file. */
  datatype Plan = Plan(dead: string, healthy: seq<string>, copy: Copier, updates: map<string, seq<ChunkRecord>>)

  datatype State = State(files: Files, plans: map<nat, Plan>)

  /** A failover takes many steps: it begins, looks at one file after the other, and commits
      in the end. Other events may come in between. `ServerFailed` is a failover that nothing
      interrupts. */
  datatype Event =
    | Uploaded(file: string, hash: string, chunks: seq<Chunk>, backend: Backend, factor: int)
    | ServerFailed(dead: string, healthy: seq<string>, copy: Copier)
    | FailoverBegun(k: nat, dead: string, healthy: seq<string>, copy: Copier)
    | FilePlanned(k: nat, file: string)
    | FailoverCommitted(k: nat)
    | ServerDeleted(server: string)
    | FileRemoved(file: string)
    | Restarted(order: seq<string>)

  /** What an upload commits goes through the request text, as in `store_metadata`. */
  ghost function Commit(files: Files, file: string, hash: string, chunks: seq<ChunkRecord>, factor: int): Files {
    var r := ParseRequest(RequestText(file, chunks, hash, factor));
    Replaced(files, r.file, r.hash, r.chunks, r.count)
  }

  ghost predicate NoSpaces(path: string) { path == "" || IsToken(path) }

  /** Servers and reported paths are without white space. */
  ghost predicate PlainBackend(backend: Backend) {
    forall k, id, server, data | server in backend.select(k) ::
      IsToken(server) && (backend.send(k, id, server, data).Some? ==> NoSpaces(backend.send(k, id, server, data).value))
  }

  /** No chunk is sent to a server twice. */
  ghost predicate SelectsOnce(backend: Backend) { forall k :: Placement.NoRepeats(backend.select(k)) }

  ghost predicate DistinctChunks(chunks: seq<Chunk>) {
    forall i, j | 0 <= i < j < |chunks| :: chunks[i].id != chunks[j].id
  }

  ghost predicate PlainFailover(dead: string, healthy: seq<string>, copy: Copier) {
    && dead !in healthy && (forall i | 0 <= i < |healthy| :: IsToken(healthy[i]))
    && forall f, id, s, p, t :: copy(f, id, s, p, t).Some? ==> NoSpaces(copy(f, id, s, p, t).value)
  }

  /** What can happen: an upload brings chunks with distinct ids; names, addresses, hashes
      and reported paths contain no white space. */
  ghost predicate Allowed(s: State, e: Event) {
    match e
    case Uploaded(file, hash, chunks, backend, _) =>
      IsToken(file) && IsToken(hash) && DistinctChunks(chunks) && SelectsOnce(backend) && PlainBackend(backend)
    case ServerFailed(dead, healthy, copy) => PlainFailover(dead, healthy, copy)
    case FailoverBegun(_, dead, healthy, copy) => PlainFailover(dead, healthy, copy)
    case FilePlanned(k, file) => k in s.plans && file in s.files
    case FailoverCommitted(k) => k in s.plans
    case Restarted(order) => IsOrder(order, s.files.Keys)
    case _ => true
  }

  /** No planned server has meanwhile received the chunk planned for it. */
  ghost predicate Unoccupied(files: Files, plan: Plan) {
    forall f, r | f in plan.updates && f in files && r in plan.updates[f] ::
      !Holds(files[f].chunks, r.chunkId, r.server)
  }

  /** A failover is committed before its targets are taken. */
  ghost predicate Timely(s: State, e: Event) {
    e.FailoverCommitted? && e.k in s.plans ==> s.plans[e.k].healthy == [] || Unoccupied(s.files, s.plans[e.k])
  }

  function CommitPlan(files: Files, plan: Plan): Files {
    if plan.healthy == [] then files else DeleteServer(ReplaceServer(files, plan.dead, plan.updates), plan.dead)
  }

  function Planned(files: Files, plan: Plan, file: string): Plan
    requires file in files
  {
    var added := Additions(file, files[file].chunks, plan.dead, plan.healthy, plan.copy);
    if added == [] then plan else plan.(updates := plan.updates[file := added])
  }

  ghost function Step(s: State, e: Event): State
    requires Allowed(s, e)
  {
    match e
    case Uploaded(file, hash, chunks, backend, factor) =>
      var pending := AllTransfers(backend, chunks);
      s.(files := Commit(s.files, file, hash, Collected(file, pending, |pending|), factor))
    case ServerFailed(dead, healthy, copy) => s.(files := AfterFailover(s.files, dead, healthy, copy))
    case FailoverBegun(k, dead, healthy, copy) => s.(plans := s.plans[k := Plan(dead, healthy, copy, map[])])
    case FilePlanned(k, file) => s.(plans := s.plans[k := Planned(s.files, s.plans[k], file)])
    case FailoverCommitted(k) => State(CommitPlan(s.files, s.plans[k]), s.plans - {k})
    case ServerDeleted(server) => s.(files := DeleteServer(s.files, server))
    case FileRemoved(file) => s.(files := s.files - {file})
    case Restarted(order) => State(Load(Dump(s.files, order)), map[])
  }

  ghost predicate SoundFile(name: string, rec: FileRecord) {
    && GoodFile(rec) && WritableFile(name, rec) && rec.fileHash != ""
    && forall r | r in rec.chunks :: r.checksum != ""
  }

  ghost predicate Sound(files: Files) { forall f | f in files :: SoundFile(f, files[f]) }

  /** A plan adds at most one record to a chunk, on a server other than the dead one. */
  ghost predicate SoundAdditions(dead: string, added: seq<ChunkRecord>) {
    && OncePerChunk(added)
    && forall r | r in added :: r.server != dead && IsToken(r.server) && IsToken(r.path) && IsToken(r.checksum)
  }

  ghost predicate SoundPlan(plan: Plan) {
    && PlainFailover(plan.dead, plan.healthy, plan.copy)
    && forall f | f in plan.updates :: SoundAdditions(plan.dead, plan.updates[f])
  }

  ghost predicate SoundState(s: State) { Sound(s.files) && forall k | k in s.plans :: SoundPlan(s.plans[k]) }

  // ---- each event keeps the invariant

  lemma SoundFromMembers(name: string, rec: FileRecord)
    requires IsToken(name) && IsToken(rec.fileHash) && GoodFile(rec)
    requires forall r | r in rec.chunks :: IsToken(r.server) && IsToken(r.path) && IsToken(r.checksum)
    ensures SoundFile(name, rec)
  {}

  lemma TextFields(name: string, rec: FileRecord)
    requires SoundFile(name, rec)
    ensures forall r | r in rec.chunks :: IsToken(r.server) && IsToken(r.path) && IsToken(r.checksum)
  {
    hide IsToken;
    forall r | r in rec.chunks
      ensures WritableChunk(r)
    {
      var i :| 0 <= i < |rec.chunks| && rec.chunks[i] == r;
    }
  }

  lemma PathsAreTokens(file: string, server: string, id: int, path: string)
    requires IsToken(file) && IsToken(server) && NoSpaces(path)
    ensures IsToken(if path != "" then path else "/tmp/chunks/" + server + "_" + ChunkKey(file, id))
  {
    PrintIntIsToken(id);
    TokensJoin("_chunk_", PrintInt(id));
    TokensJoin(file, "_chunk_" + PrintInt(id));
    assert ChunkKey(file, id) == file + ("_chunk_" + PrintInt(id));
    TokensJoin("_", ChunkKey(file, id));
    TokensJoin(server, "_" + ChunkKey(file, id));
    TokensJoin("/tmp/chunks/", server + ("_" + ChunkKey(file, id)));
    assert "/tmp/chunks/" + server + "_" + ChunkKey(file, id) == "/tmp/chunks/" + (server + ("_" + ChunkKey(file, id)));
  }

  lemma TokensJoin(a: string, b: string)
    requires IsToken(a) && IsToken(b)
    ensures IsToken(a + b)
  {}

  lemma CommitIs(files: Files, file: string, hash: string, chunks: seq<ChunkRecord>, factor: int)
    requires IsToken(file) && IsToken(hash) && forall r | r in chunks :: Sendable(r)
    ensures Commit(files, file, hash, chunks, factor) == Replaced(files, file, hash, chunks, factor)
  {
    hide Replaced, ParseRequest, RequestText, Sendable;
    RequestRoundTrip(file, chunks, hash, factor);
  }

  lemma CollectedIsSendable(file: string, pending: seq<Transfer>, r: ChunkRecord)
    requires IsToken(file) && r in Collected(file, pending, |pending|)
    requires forall i | 0 <= i < |pending| ::
      && IsToken(pending[i].server) && IsToken(pending[i].checksum)
      && (pending[i].outcome.Some? ==> NoSpaces(pending[i].outcome.value))
    ensures Sendable(r)
  {
    hide IsToken, NoSpaces, Collected, ChunkKey;
    CollectedFrom(file, pending, |pending|, r);
    var i :| 0 <= i < |pending| && RecordOf(file, pending[i], r);
    PathsAreTokens(file, pending[i].server, pending[i].chunkId, pending[i].outcome.value);
  }

  /** Transfers come from chunks: distinct ids and selections without repetition place every
      chunk apart. */
  lemma {:induction false} TransfersAreDistinct(backend: Backend, chunks: seq<Chunk>)
    requires DistinctChunks(chunks) && SelectsOnce(backend)
    ensures DistinctTransfers(AllTransfers(backend, chunks))
    decreases |chunks|
  {
    hide HexSha256;
    if chunks != [] {
      var n := |chunks| - 1;
      var before, own := AllTransfers(backend, chunks[..n]), TransfersOf(backend, n, chunks[n]);
      TransfersAreDistinct(backend, chunks[..n]);
      forall i | 0 <= i < |before| ensures before[i].chunkId != chunks[n].id {
        TransferOrigin(backend, chunks[..n], before[i]);
        var k :| 0 <= k < n && SentFrom(backend, chunks[..n], k, before[i]);
        assert chunks[..n][k] == chunks[k];
      }
      OwnAreDistinct(backend, n, chunks[n]);
      JoinDistinct(before, own, chunks[n].id);
    }
  }

  lemma OwnAreDistinct(backend: Backend, k: nat, c: Chunk)
    requires SelectsOnce(backend)
    ensures var own := TransfersOf(backend, k, c);
      DistinctTransfers(own) && forall i | 0 <= i < |own| :: own[i].chunkId == c.id
  {
    hide HexSha256;
    assert Placement.NoRepeats(backend.select(k));
  }

  lemma JoinDistinct(before: seq<Transfer>, own: seq<Transfer>, id: int)
    requires DistinctTransfers(before) && DistinctTransfers(own)
    requires (forall i | 0 <= i < |before| :: before[i].chunkId != id) &&
      forall i | 0 <= i < |own| :: own[i].chunkId == id
    ensures DistinctTransfers(before + own)
  {
    var all := before + own;
    assert forall i | 0 <= i < |before| :: all[i] == before[i];
    assert forall i | |before| <= i < |all| :: all[i] == own[i - |before|];
  }

  /** Selections made from the registered servers meet the hypothesis of an upload. */
  lemma PlacementSelectsOnce(backend: Backend, servers: nat -> seq<string>,
                             health: nat -> Option<seq<Health>>, factor: int)
    requires forall k :: Placement.NoRepeats(servers(k))
    requires forall k :: Placement.IsSelection(servers(k), health(k), factor, backend.select(k))
    ensures SelectsOnce(backend)
  {
    forall k ensures Placement.NoRepeats(backend.select(k)) {
      Placement.SelectionIsDistinct(servers(k), health(k), factor, backend.select(k));
    }
  }

  lemma TransferIsPlain(backend: Backend, chunks: seq<Chunk>, t: Transfer)
    requires PlainBackend(backend) && t in AllTransfers(backend, chunks)
    ensures IsToken(t.server) && IsToken(t.checksum) && (t.outcome.Some? ==> NoSpaces(t.outcome.value))
  {
    hide HexSha256, AllTransfers, IsToken, NoSpaces;
    TransferOrigin(backend, chunks, t);
    var k :| 0 <= k < |chunks| && SentFrom(backend, chunks, k, t);
    DigestIsToken(chunks[k].data);
  }

  lemma UploadIsSound(s: State, e: Event)
    requires Sound(s.files) && e.Uploaded? && Allowed(s, e)
    ensures Sound(Step(s, e).files) && e.file in Step(s, e).files
    ensures var pending := AllTransfers(e.backend, e.chunks);
      && Step(s, e).files[e.file].chunks == Collected(e.file, pending, |pending|)
      && Step(s, e).files[e.file].fileHash == e.hash
    ensures var rec := Step(s, e).files[e.file];
      rec.replicaCount == if e.factor > 0 || rec.chunks == [] then e.factor else FirstCount(rec.chunks)
  {
    hide Collected, IsToken, SoundFile, ExactCounts, DistinctPlacement, Commit, NoSpaces, FillCounts, FileCount,
      FirstCount, AllTransfers, PlainBackend, SelectsOnce, DistinctChunks, HexSha256, DistinctTransfers;
    var pending := AllTransfers(e.backend, e.chunks);
    var chunks := Collected(e.file, pending, |pending|);
    TransfersAreDistinct(e.backend, e.chunks);
    forall i | 0 <= i < |pending|
      ensures IsToken(pending[i].server) && IsToken(pending[i].checksum)
      ensures pending[i].outcome.Some? ==> NoSpaces(pending[i].outcome.value)
    {
      TransferIsPlain(e.backend, e.chunks, pending[i]);
    }
    forall r | r in chunks
      ensures Sendable(r)
    {
      CollectedIsSendable(e.file, pending, r);
    }
    CommitIs(s.files, e.file, e.hash, chunks, e.factor);
    CollectedIsExact(e.file, pending);
    CollectedIsDistinct(e.file, pending, |pending|);
    ReplacedIsGood(map[], e.file, e.hash, chunks, e.factor);
    SoundFromMembers(e.file, Step(s, e).files[e.file]);
    CountOfUpload(e.factor, chunks);
  }

  lemma CountOfUpload(factor: int, chunks: seq<ChunkRecord>)
    ensures FileCount(factor, chunks) == if factor > 0 || chunks == [] then factor else FirstCount(chunks)
  {}

  /** Whatever a failover plans for a file of a sound store can be committed. */
  lemma AdditionsAreSound(f: string, rec: FileRecord, dead: string, healthy: seq<string>, copy: Copier)
    requires SoundFile(f, rec) && PlainFailover(dead, healthy, copy)
    ensures SoundAdditions(dead, Additions(f, rec.chunks, dead, healthy, copy))
  {
    hide IsToken, NoSpaces, Additions, SoundFile, PlainFailover, RepairOf;
    var added := Additions(f, rec.chunks, dead, healthy, copy);
    assert dead !in healthy by { DeadIsNotHealthy(dead, healthy, copy); }
    AdditionsAre(f, rec.chunks, dead, healthy, copy);
    OnceFromCounts(added);
    forall r | r in added ensures IsToken(r.server) && IsToken(r.path) && IsToken(r.checksum) {
      RepairIsToken(f, rec, dead, healthy, copy, r);
    }
  }

  lemma DeadIsNotHealthy(dead: string, healthy: seq<string>, copy: Copier)
    requires PlainFailover(dead, healthy, copy)
    ensures dead !in healthy
  {}

  lemma RepairIsToken(f: string, rec: FileRecord, dead: string, healthy: seq<string>, copy: Copier, r: ChunkRecord)
    requires SoundFile(f, rec) && PlainFailover(dead, healthy, copy)
    requires RepairOf(f, rec.chunks, r.chunkId, dead, healthy, copy) == Some(r)
    ensures IsToken(r.server) && IsToken(r.path) && IsToken(r.checksum)
  {
    hide IsToken, NoSpaces, GoodFile, RecordsOf, DeadChecksum, Survivor, Target, ChunkKey;
    TextFields(f, rec);
    RepairTarget(f, rec.chunks, r.chunkId, dead, healthy, copy);
    var source := Survivor(RecordsOf(rec.chunks, r.chunkId), dead).value;
    var path := copy(f, r.chunkId, source.server, source.path, r.server).value;
    PathsAreTokens(f, r.server, r.chunkId, path);
  }

  /** One file under a commit: what LateCommit says, since the swap already drops the server. */
  lemma CommittedFile(now: FileRecord, dead: string, added: seq<ChunkRecord>)
    requires GoodFile(now) && SoundAdditions(dead, added)
    ensures WithoutServer(SwapServer(now, dead, added), dead) == SwapServer(now, dead, added)
    ensures GoodFile(SwapServer(now, dead, added)) <==> forall r | r in added :: !Holds(now.chunks, r.chunkId, r.server)
  {
    hide IsToken, Without, Recount, GoodFile, OncePerChunk;
    var kept := Without(now.chunks, dead);
    WithoutContents(now.chunks, dead);
    assert forall r | r in kept + added :: r.server != dead;
    SwappedIsClean(kept + added, dead);
    LateCommit(now, dead, added);
  }

  lemma SwappedIsClean(all: seq<ChunkRecord>, dead: string)
    requires forall r | r in all :: r.server != dead
    ensures Recount(Without(Recount(all), dead)) == Recount(all)
  {
    hide Without;
    var out := Recount(all);
    forall r | r in out ensures r.server != dead {
      var i :| 0 <= i < |out| && out[i] == r;
      assert all[i] in all;
    }
    WithoutAbsent(out, dead);
    RecountTwice(all);
  }

  /** A commit leaves a good store exactly when no planned server has meanwhile received the
      chunk planned for it. */
  lemma CommitIff(files: Files, plan: Plan)
    requires Good(files) && SoundPlan(plan) && plan.healthy != []
    ensures Good(CommitPlan(files, plan)) <==> Unoccupied(files, plan)
  {
    hide GoodFile, SwapServer, WithoutServer, SoundAdditions, PlainFailover;
    var after := CommitPlan(files, plan);
    forall f | f in files
      ensures GoodFile(after[f]) <==>
        (f in plan.updates ==> forall r | r in plan.updates[f] :: !Holds(files[f].chunks, r.chunkId, r.server))
    {
      if f in plan.updates {
        CommittedFile(files[f], plan.dead, plan.updates[f]);
      } else {
        ShrunkIsGood(files[f], plan.dead);
      }
    }
  }

  lemma ShrunkIsGood(rec: FileRecord, server: string)
    requires GoodFile(rec)
    ensures GoodFile(WithoutServer(rec, server))
  {
    DeleteServerIsGood(map["" := rec], server);
    assert DeleteServer(map["" := rec], server)[""] == WithoutServer(rec, server);
  }

  lemma CommitIsSound(files: Files, plan: Plan)
    requires Sound(files) && SoundPlan(plan) && (plan.healthy == [] || Unoccupied(files, plan))
    ensures Sound(CommitPlan(files, plan))
  {
    hide GoodFile, SwapServer, WithoutServer, PlainFailover, IsToken, Unoccupied;
    if plan.healthy != [] {
      SoundIsGood(files);
      CommitIff(files, plan);
      var after := CommitPlan(files, plan);
      forall f | f in files ensures SoundFile(f, after[f]) {
        CommittedFields(files[f], f, plan);
        SoundFromMembers(f, after[f]);
      }
    }
  }

  lemma CommittedFields(rec: FileRecord, f: string, plan: Plan)
    requires SoundFile(f, rec) && SoundPlan(plan)
    ensures var swapped := if f in plan.updates then SwapServer(rec, plan.dead, plan.updates[f]) else rec;
      var after := WithoutServer(swapped, plan.dead);
      && after.fileHash == rec.fileHash
      && forall r | r in after.chunks :: IsToken(r.server) && IsToken(r.path) && IsToken(r.checksum)
  {
    hide GoodFile, PlainFailover, IsToken, Without, Recount;
    var swapped := if f in plan.updates then SwapServer(rec, plan.dead, plan.updates[f]) else rec;
    TextFields(f, rec);
    if f in plan.updates {
      WithoutContents(rec.chunks, plan.dead);
      RecountedMembers(Without(rec.chunks, plan.dead) + plan.updates[f]);
    }
    WithoutContents(swapped.chunks, plan.dead);
    RecountedMembers(Without(swapped.chunks, plan.dead));
  }

  /** A failover that nothing interrupts is a plan of every file, committed at once. */
  lemma FailoverIsSound(s: State, e: Event)
    requires Sound(s.files) && e.ServerFailed? && Allowed(s, e)
    ensures Sound(Step(s, e).files)
  {
    hide IsToken, NoSpaces, GoodFile, SoundFile, Additions, DeleteServer, ReplaceServer;
    var plan := Plan(e.dead, e.healthy, e.copy, Updates(s.files, e.dead, e.healthy, e.copy));
    forall f | f in plan.updates ensures SoundAdditions(plan.dead, plan.updates[f]) {
      AdditionsAreSound(f, s.files[f], e.dead, e.healthy, e.copy);
    }
    forall f, r | f in plan.updates && f in s.files && r in plan.updates[f]
      ensures !Holds(s.files[f].chunks, r.chunkId, r.server)
    {
      AdditionsAre(f, s.files[f].chunks, e.dead, e.healthy, e.copy);
      RepairedFrom(f, s.files[f].chunks, r.chunkId, e.dead, e.healthy, e.copy);
    }
    CommitIsSound(s.files, plan);
  }

  lemma DeletionIsSound(files: Files, server: string)
    requires Sound(files)
    ensures Sound(DeleteServer(files, server))
  {
    hide IsToken, GoodFile, Recount, Without;
    DeleteServerIsGood(files, server);
    forall f | f in files
      ensures SoundFile(f, DeleteServer(files, server)[f])
    {
      var kept := Without(files[f].chunks, server);
      TextFields(f, files[f]);
      WithoutContents(files[f].chunks, server);
      RecountedMembers(kept);
      SoundFromMembers(f, DeleteServer(files, server)[f]);
    }
  }

  /** A restart brings back every file with its hash and all its records. Only a file
      count at or below zero, which is not written, can change. */
  lemma RestartLosesNothing(files: Files, order: seq<string>)
    requires Sound(files) && IsOrder(order, files.Keys)
    ensures var after := Load(Dump(files, order));
      && after.Keys == files.Keys
      && forall f | f in files ::
           && after[f].fileHash == files[f].fileHash && after[f].chunks == files[f].chunks
           && (files[f].replicaCount > 0 ==> after[f] == files[f])
  {
    hide IsToken, Load, Dump, FirstCount;
    LoadOfDump(files, order);
    forall f | f in files
      ensures Recount(ReadBackAll(files[f].chunks)) == files[f].chunks
    {
      var chunks := files[f].chunks;
      assert ReadBackAll(chunks) == chunks;
      assert Recount(chunks) == chunks;
    }
  }

  lemma RestartIsSound(files: Files, order: seq<string>)
    requires Sound(files) && IsOrder(order, files.Keys)
    ensures Sound(Load(Dump(files, order)))
  {
    hide Load, Dump, IsToken;
    RestartLosesNothing(files, order);
  }

  lemma PlannedIsSound(s: State, e: Event)
    requires SoundState(s) && e.FilePlanned? && Allowed(s, e)
    ensures SoundState(Step(s, e))
  {
    hide IsToken, NoSpaces, SoundFile, Additions, SoundAdditions, PlainFailover;
    var plan := s.plans[e.k];
    AdditionsAreSound(e.file, s.files[e.file], plan.dead, plan.healthy, plan.copy);
  }

  lemma StepIsSound(s: State, e: Event)
    requires SoundState(s) && Allowed(s, e) && Timely(s, e)
    ensures SoundState(Step(s, e))
  {
    hide SoundFile, AfterFailover, DeleteServer, Commit, CommitPlan, Load, Dump, SoundAdditions, PlainFailover;
    match e
    case Uploaded(_, _, _, _, _) => UploadIsSound(s, e);
    case ServerFailed(_, _, _) => FailoverIsSound(s, e);
    case FailoverBegun(_, _, _, _) =>
    case FilePlanned(_, _) => PlannedIsSound(s, e);
    case FailoverCommitted(k) => CommitIsSound(s.files, s.plans[k]);
    case ServerDeleted(server) => DeletionIsSound(s.files, server);
    case FileRemoved(file) =>
    case Restarted(order) => RestartIsSound(s.files, order);
  }

  // ---- runs

  ghost predicate IsRun(states: seq<State>, events: seq<Event>) {
    && |states| == |events| + 1 && states[0] == State(map[], map[])
    && forall i | 0 <= i < |events| :: Allowed(states[i], events[i]) && states[i + 1] == Step(states[i], events[i])
  }

  /** In every state of every run in which no commit comes too late, each record's count is
      the number of records of its chunk, and no chunk has two records on one server. */
  lemma {:induction false} RunKeepsInvariants(states: seq<State>, events: seq<Event>, n: nat)
    requires IsRun(states, events) && n < |states|
    requires forall i | 0 <= i < n :: Timely(states[i], events[i])
    ensures SoundState(states[n]) && Good(states[n].files)
  {
    hide Sound, SoundPlan, Allowed, Step, Timely;
    if n == 0 {
      EmptyIsSound();
    } else {
      RunKeepsInvariants(states, events, n - 1);
      StepIsSound(states[n - 1], events[n - 1]);
    }
    SoundIsGood(states[n].files);
  }

  /** And a commit that comes too late breaks them: the run stays good up to its next state
      if and only if the step is timely. */
  lemma RunStaysGoodIff(states: seq<State>, events: seq<Event>, n: nat)
    requires IsRun(states, events) && n < |events|
    requires forall i | 0 <= i < n :: Timely(states[i], events[i])
    ensures Good(states[n + 1].files) <==> Timely(states[n], events[n])
  {
    hide Sound, SoundPlan, CommitPlan, Unoccupied;
    RunKeepsInvariants(states, events, n);
    var s, e := states[n], events[n];
    if Timely(s, e) {
      StepIsSound(s, e);
      SoundIsGood(states[n + 1].files);
    } else {
      CommitIff(s.files, s.plans[e.k]);
    }
  }

  lemma EmptyIsSound()
    ensures Sound(map[])
  {}

  lemma SoundIsGood(files: Files)
    requires Sound(files)
    ensures Good(files)
  {}
}
