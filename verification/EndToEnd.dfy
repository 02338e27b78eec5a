/** Upload followed by download, through the real text, metadata, voting and reassembly. */
module EndToEnd {
  import opened Basics
  import opened Text
  import opened Sha256Spec
  import opened Metadata
  import opened UploadText
  import opened MetadataStore
  import opened MetadataRuns
  import opened Failover
  import opened Upload
  import opened Voting
  import opened Cluster
  import opened Dialogue
  import opened Download
  import Placement

  /** The cluster at download time: what each replica answers when asked for its hash, what
      the chosen server then sends, and the registered servers with their public ports. All
      of it may be wrong or missing. */
  datatype World = World(probe: Probe, get: Server, entries: seq<Placement.Entry>)

  /** Cluster servers have addresses with a host, and addresses and reported paths without
      white space. */
  ghost predicate CleanBackend(backend: Backend) {
    PlainBackend(backend) && forall k, server | server in backend.select(k) :: IsToken(HostOf(server))
  }

  /** The records an upload of these pieces leaves behind. */
  ghost function RecordsFor(name: string, pieces: seq<seq<byte>>, backend: Backend): seq<ChunkRecord> {
    RecordsFrom(backend, name, Numbered(0, pieces))
  }

  /** Among the replicas that answer, the original hash strictly out-votes every other. */
  ghost predicate OriginalWins(records: seq<ChunkRecord>, probe: Probe, id: int, data: seq<byte>) {
    var votes := |Voters(records, probe, id, HexSha256(data))|;
    votes > 0 && forall other :: other != HexSha256(data) ==> |Voters(records, probe, id, other)| < votes
  }

  /** A server that answers with the original hash then sends bytes that have it. Nothing is
      asked of a server that reports anything else. */
  ghost predicate OriginalIsServed(records: seq<ChunkRecord>, world: World, id: int, data: seq<byte>) {
    forall i | i in Voters(records, world.probe, id, HexSha256(data)) ::
      Arrived(LocOf(world.entries, Fetch(id, records[i].server, HexSha256(data))), world.get)
  }

  /** No bytes that the cluster sends for the chunk collide with the original. */
  ghost predicate NoCollision(world: World, id: int, data: seq<byte>) {
    forall l: Loc :: l.id == id && world.get(l).Some? && HexSha256(world.get(l).value) == HexSha256(data) ==>
      world.get(l).value == data
  }

  ghost predicate Favourable(records: seq<ChunkRecord>, world: World, pieces: seq<seq<byte>>) {
    forall i | 0 <= i < |pieces| ::
      && OriginalWins(records, world.probe, i, pieces[i])
      && OriginalIsServed(records, world, i, pieces[i]) && NoCollision(world, i, pieces[i])
  }

  /** No winning hash contains a line break. */
  ghost predicate OneLineWinners(records: seq<ChunkRecord>, probe: Probe) {
    forall id, hash | Elected(records, probe, id, hash) :: OneLine(hash)
  }

  /** Every piece was stored by at least one of the servers selected for it. */
  ghost predicate EachStored(pieces: seq<seq<byte>>, backend: Backend) {
    forall k | 0 <= k < |pieces| ::
      exists server :: server in backend.select(k) && backend.send(k, k, server, pieces[k]).Some?
  }

  /** Every recorded replica reports the checksum it was stored with and sends the chunk, and
      nothing else is sent for a chunk. */
  ghost predicate Honest(records: seq<ChunkRecord>, world: World, pieces: seq<seq<byte>>) {
    && (forall r | r in records :: world.probe(r).Some? && world.probe(r).value.hash == r.checksum)
    && (forall r | r in records :: world.get(LocOf(world.entries, Fetch(r.chunkId, r.server, r.checksum))).Some?)
    && forall l: Loc | 0 <= l.id < |pieces| && world.get(l).Some? :: world.get(l).value == pieces[l.id]
  }

  /** An honest world is favourable as soon as every piece was stored once. */
  lemma HonestIsFavourable(name: string, pieces: seq<seq<byte>>, backend: Backend, world: World)
    requires EachStored(pieces, backend) && Honest(RecordsFor(name, pieces, backend), world, pieces)
    ensures Favourable(RecordsFor(name, pieces, backend), world, pieces)
  {
    hide HexSha256, EachStored, RecordsFor, PortOf, HostOf;
    var records := RecordsFor(name, pieces, backend);
    forall k | 0 <= k < |pieces|
      ensures OriginalWins(records, world.probe, k, pieces[k])
      ensures OriginalIsServed(records, world, k, pieces[k]) && NoCollision(world, k, pieces[k])
    {
      HonestVotes(name, pieces, backend, world, k);
    }
  }

  lemma HonestVotes(name: string, pieces: seq<seq<byte>>, backend: Backend, world: World, k: nat)
    requires k < |pieces| && EachStored(pieces, backend) && Honest(RecordsFor(name, pieces, backend), world, pieces)
    ensures OriginalWins(RecordsFor(name, pieces, backend), world.probe, k, pieces[k])
  {
    hide HexSha256, RecordsFrom, PortOf, HostOf;
    var records, chunks := RecordsFor(name, pieces, backend), Numbered(0, pieces);
    var hash := HexSha256(pieces[k]);
    var server :| server in backend.select(k) && backend.send(k, k, server, pieces[k]).Some?;
    StoredIsRecorded(backend, name, chunks, k, server);
    var r :| r in records && r.server == server && StoredFrom(backend, name, chunks, k, r);
    var i :| 0 <= i < |records| && records[i] == r;
    assert Answering(records, world.probe, k, i) && i in Voters(records, world.probe, k, hash);
    forall other | other != hash
      ensures Voters(records, world.probe, k, other) == {}
    {
      forall j | Answering(records, world.probe, k, j)
        ensures world.probe(records[j]).value.hash == hash
      {
        RecordIsStored(backend, name, chunks, records[j]);
      }
    }
  }

  // ---- the plan of a favourable download

  lemma FetchIsOriginal(records: seq<ChunkRecord>, world: World, f: Fetch, data: seq<byte>)
    requires OriginalWins(records, world.probe, f.id, data)
    requires OriginalIsServed(records, world, f.id, data) && NoCollision(world, f.id, data)
    requires GoodFetch(records, world.probe, f)
    ensures f.hash == HexSha256(data) && world.get(LocOf(world.entries, f)) == Some(data)
  {
    hide HexSha256, Elected, Better, PortOf;
    ElectedIsUnique(records, world.probe, f.id, f.hash, HexSha256(data));
    var i :| BestVoter(records, world.probe, f.id, f.hash, i) && records[i].server == f.server;
    assert f == Fetch(f.id, records[i].server, HexSha256(data));
  }

  lemma {:induction false} RangePrefix(ids: seq<int>, n: nat, k: nat)
    requires Ascending(ids) && k <= n && forall i | 0 <= i < |ids| :: 0 <= ids[i]
    requires forall id | 0 <= id < n :: id in ids
    ensures k <= |ids| && forall i | 0 <= i < k :: ids[i] == i
  {
    if k > 0 {
      RangePrefix(ids, n, k - 1);
      assert k - 1 in ids;
      var p :| 0 <= p < |ids| && ids[p] == k - 1;
      assert k > 1 ==> ids[k - 2] == k - 2;
    }
  }

  lemma AscendingGrows(ids: seq<int>, i: nat)
    requires Ascending(ids) && i < |ids| && 0 <= ids[0]
    ensures i <= ids[i]
  {
    if i > 0 { AscendingGrows(ids, i - 1); }
  }

  /** Ascending numbers below n that include all of them are 0, 1, ..., n-1. */
  lemma AscendingIsRange(ids: seq<int>, n: nat)
    requires Ascending(ids) && forall i | 0 <= i < |ids| :: 0 <= ids[i] < n
    requires forall id | 0 <= id < n :: id in ids
    ensures |ids| == n && forall i | 0 <= i < n :: ids[i] == i
  {
    RangePrefix(ids, n, n);
    if |ids| > n {
      AscendingGrows(ids, n);
    }
  }

  lemma {:induction false} AssembledIs(plan: seq<Loc>, get: Server, pieces: seq<seq<byte>>, n: nat)
    requires n <= |pieces| == |plan| && DistinctIds(plan)
    requires forall i | 0 <= i < |plan| :: plan[i].id == i && get(plan[i]) == Some(pieces[i])
    ensures Assembled(plan, get, n) == Flatten(pieces[..n])
  {
    if n > 0 {
      AssembledIs(plan, get, pieces, n - 1);
      PieceOf(plan, get, n - 1);
      assert pieces[..n] == pieces[..n - 1] + [pieces[n - 1]];
      FlattenSnoc(pieces[..n - 1], pieces[n - 1]);
    }
  }

  lemma RecordIds(name: string, pieces: seq<seq<byte>>, backend: Backend, r: ChunkRecord)
    requires r in RecordsFor(name, pieces, backend)
    ensures 0 <= r.chunkId < |pieces|
  {
    hide RecordsFrom, HexSha256;
    RecordIsStored(backend, name, Numbered(0, pieces), r);
  }

  /** When every chunk has an answering replica, the plan lists the chunks 0, 1, 2, ... */
  lemma PlannedIds(name: string, pieces: seq<seq<byte>>, backend: Backend, world: World)
    requires Favourable(RecordsFor(name, pieces, backend), world, pieces)
    ensures var ids := SortedIds(RecordsFor(name, pieces, backend));
      |ids| == |pieces| && forall i | 0 <= i < |pieces| :: ids[i] == i
  {
    hide SortedIds, RecordsFor, HexSha256, Voters, Unanswered;
    var records := RecordsFor(name, pieces, backend);
    SortedIdsAscend(records);
    forall id
      ensures id in SortedIds(records) <==> 0 <= id < |pieces|
    {
      SortedIdsMembers(records, id);
      if HasId(records, id) {
        var i :| 0 <= i < |records| && records[i].chunkId == id;
        RecordIds(name, pieces, backend, records[i]);
      }
      if 0 <= id < |pieces| {
        AnsweredIsRecorded(records, world.probe, id, pieces[id]);
      }
    }
    assert forall i | 0 <= i < |SortedIds(records)| :: SortedIds(records)[i] in SortedIds(records);
    AscendingIsRange(SortedIds(records), |pieces|);
  }

  lemma AnsweredIsRecorded(records: seq<ChunkRecord>, probe: Probe, id: int, data: seq<byte>)
    requires OriginalWins(records, probe, id, data)
    ensures HasId(records, id) && !Unanswered(records, probe, id)
  {
    hide HexSha256;
    var i := Member(Voters(records, probe, id, HexSha256(data)));
    assert Answering(records, probe, id, i);
  }

  /** The plan that the head makes from these records. */
  ghost predicate PlanFor(records: seq<ChunkRecord>, probe: Probe, plan: seq<Fetch>) {
    && |plan| == |SortedIds(records)|
    && forall i | 0 <= i < |plan| :: plan[i].id == SortedIds(records)[i] && GoodFetch(records, probe, plan[i])
  }

  /** A favourable plan reaches the client as it was made and gives the uploaded bytes. */
  lemma FavourableOutcome(name: string, file: seq<byte>, pieces: seq<seq<byte>>, backend: Backend, world: World,
                          plan: seq<Fetch>)
    requires Flatten(pieces) == file && Favourable(RecordsFor(name, pieces, backend), world, pieces)
    requires CleanBackend(backend) && PlanFor(RecordsFor(name, pieces, backend), world.probe, plan)
    ensures var locs := LocsOf(world.entries, plan);
      && ReadAnswer(AnswerText(Planned(HexSha256(file), locs))) == Places(HexSha256(file), locs)
      && DistinctIds(locs) && Outcome(HexSha256(file), locs, world.get) == Some(file)
  {
    hide SortedIds, RecordsFor, HexSha256, OriginalWins, OriginalIsServed, NoCollision, GoodFetch, PortOf, CleanBackend,
      ReadAnswer, AnswerText, IsToken;
    var records := RecordsFor(name, pieces, backend);
    var locs := LocsOf(world.entries, plan);
    PlannedIds(name, pieces, backend, world);
    forall i | 0 <= i < |plan|
      ensures Arrived(locs[i], world.get) && world.get(locs[i]) == Some(pieces[i]) && IsToken(locs[i].hash)
    {
      FetchIsOriginal(records, world, plan[i], pieces[i]);
      DigestIsToken(pieces[i]);
    }
    AssembledIs(locs, world.get, pieces, |plan|);
    assert pieces[..|pieces|] == pieces;
    DigestIsToken(file);
    TokenIsOneLine(HexSha256(file));
    PlanHosts(name, pieces, backend, world.probe, plan, world.entries);
    ParsesBackIff(HexSha256(file), locs);
  }

  /** Planned servers are recorded ones, so their hosts can be written on a line. */
  lemma PlanHosts(name: string, pieces: seq<seq<byte>>, backend: Backend, probe: Probe, plan: seq<Fetch>,
                  entries: seq<Placement.Entry>)
    requires CleanBackend(backend) && PlanFor(RecordsFor(name, pieces, backend), probe, plan)
    ensures forall i | 0 <= i < |plan| :: IsToken(LocsOf(entries, plan)[i].ip)
  {
    hide SortedIds, RecordsFor, PortOf, IsToken, HostOf, CleanBackend, GoodFetch;
    var records := RecordsFor(name, pieces, backend);
    forall i | 0 <= i < |plan| ensures IsToken(LocsOf(entries, plan)[i].ip) {
      PlacedIsHeld(records, probe, plan[i]);
      assert Holds(records, plan[i].id, plan[i].server);
      var k :| 0 <= k < |records| && records[k].chunkId == plan[i].id && records[k].server == plan[i].server;
      RecordHost(name, pieces, backend, records[k]);
    }
  }

  lemma RecordHost(name: string, pieces: seq<seq<byte>>, backend: Backend, r: ChunkRecord)
    requires CleanBackend(backend) && r in RecordsFor(name, pieces, backend)
    ensures IsToken(HostOf(r.server))
  {
    hide RecordsFrom, Numbered, IsToken, HostOf, HexSha256;
    RecordIsStored(backend, name, Numbered(0, pieces), r);
  }

  /** With one-line winners, whatever the client reads is about the committed hash. */
  lemma WinnersAreSafe(name: string, pieces: seq<seq<byte>>, backend: Backend, world: World, plan: seq<Fetch>,
                       hash: string)
    requires CleanBackend(backend) && PlanFor(RecordsFor(name, pieces, backend), world.probe, plan)
    requires OneLineWinners(RecordsFor(name, pieces, backend), world.probe) && OneLine(hash)
    ensures var r := ReadAnswer(AnswerText(Planned(hash, LocsOf(world.entries, plan)))); r.Places? ==> r.hash == hash
  {
    hide SortedIds, RecordsFor, PortOf, CleanBackend, ReadAnswer, AnswerText, IsToken, OneLine, Elected, BestVoter;
    var locs := LocsOf(world.entries, plan);
    PlanHosts(name, pieces, backend, world.probe, plan, world.entries);
    assert forall i | 0 <= i < |plan| :: OneLine(locs[i].hash);
    FileHashArrives(hash, locs);
  }

  /** A replica whose report wins and carries lines of its own makes the client accept other
      bytes in place of the committed file, whatever the head's file hash is. */
  lemma ReportWithLines(hash: string, r: ChunkRecord, world: World, data: seq<byte>)
    requires OneLine(hash) && IsToken(HostOf(r.server))
    requires var d := HexSha256(data);
      world.probe(r) == Some(Report(WithLines(d, d), 0, 0.0)) &&
      world.get(LocOf(world.entries, Fetch(r.chunkId, r.server, d))) == Some(data) && r.chunkId == 0
    ensures var f := Fetch(0, r.server, WithLines(HexSha256(data), HexSha256(data)));
      && GoodFetch([r], world.probe, f)
      && var reading := ReadAnswer(AnswerText(Planned(hash, LocsOf(world.entries, [f]))));
         reading.Places? && Outcome(reading.hash, reading.locs, world.get) == Some(data)
  {
    hide HexSha256, IsToken, OneLine, ReadAnswer, AnswerText, HostOf, PortOf, WithLines;
    var d := HexSha256(data);
    var f := Fetch(0, r.server, WithLines(d, d));
    DigestIsToken(data);
    TokenIsOneLine(d);
    LoneReplyWins(r, world.probe);
    var l := LocOf(world.entries, f);
    assert LocsOf(world.entries, [f]) == [l];
    EmbeddedHashArrives(hash, l, d, d);
    OneChunk(d, l.(hash := d), world.get, data);
  }

  lemma LoneReplyWins(r: ChunkRecord, probe: Probe)
    requires probe(r).Some?
    ensures GoodFetch([r], probe, Fetch(r.chunkId, r.server, probe(r).value.hash))
  {
    var id, hash := r.chunkId, probe(r).value.hash;
    assert Answering([r], probe, id, 0);
    assert forall h :: Voters([r], probe, id, h) == if h == hash then {0} else {};
    assert BestVoter([r], probe, id, hash, 0);
  }

  lemma OneChunk(hash: string, l: Loc, get: Server, data: seq<byte>)
    requires l.id == 0 && l.hash == HexSha256(data) == hash && get(l) == Some(data)
    ensures Outcome(hash, [l], get) == Some(data)
  {
    hide HexSha256;
    assert Assembled([l], get, 0) == [];
    assert PieceAt([l], get, 0) == data;
    assert Assembled([l], get, 1) == [] + data == data;
    assert Arrived([l][0], get) && AllArrived([l], get);
  }

  // ---- the whole trip

  lemma CommittedRecord(name: string, pieces: seq<seq<byte>>, backend: Backend, hash: string, factor: int,
                        records: seq<ChunkRecord>)
    requires IsToken(name) && IsToken(hash) && CleanBackend(backend)
    requires records == [] || records == RecordsFor(name, pieces, backend)
    ensures var r := ParseRequest(RequestText(name, records, hash, factor));
      r.file == name && r.hash == hash && FillCounts(r.chunks) == records
  {
    hide HexSha256, AllTransfers, Numbered, ParseRequest, RequestText, IsToken, Collected, NoSpaces;
    var pending := AllTransfers(backend, Numbered(0, pieces));
    forall i | 0 <= i < |pending|
      ensures IsToken(pending[i].server) && IsToken(pending[i].checksum)
      ensures pending[i].outcome.Some? ==> NoSpaces(pending[i].outcome.value)
    {
      TransferIsPlain(backend, Numbered(0, pieces), pending[i]);
    }
    forall r | r in records
      ensures Sendable(r)
    {
      CollectedIsSendable(name, pending, r);
    }
    TokenIsLine(name);
    TokenIsLine(hash);
    RequestRoundTrip(name, records, hash, factor);
    if records != [] {
      CollectedIsExact(name, pending);
      ExactIsFilled(records);
    } else {
      ExactIsFilled([]);
    }
  }

  lemma ExactIsFilled(records: seq<ChunkRecord>)
    requires ExactCounts(records)
    ensures FillCounts(records) == records
  {
    forall i | 0 <= i < |records|
      ensures records[i].replicaCount > 0
    {
      CountPositive(records, records[i].chunkId);
      assert records[i] in records;
    }
  }

  lemma TokenIsLine(s: string)
    requires IsToken(s)
    ensures All(NotNewline, s)
  {}

  /** `query_metadata`: an unknown file, and one without a name, has an empty record. */
  function Queried(files: Files, name: string): FileRecord {
    if name == "" || name !in files then FileRecord("", 0, []) else files[name]
  }

  /** The answer that the head owes for a file. */
  ghost predicate Answers(rec: FileRecord, probe: Probe, entries: seq<Placement.Entry>, a: Answer, plan: seq<Fetch>) {
    if rec.chunks == [] then a == if rec.fileHash == "" then NoSuchFile else EmptyFile(rec.fileHash)
    else if exists id :: HasId(rec.chunks, id) && Unanswered(rec.chunks, probe, id)
    then
      && a.Unverified? && a.hash == rec.fileHash && a.count == |SortedIds(rec.chunks)|
      && HasId(rec.chunks, a.id) && Unanswered(rec.chunks, probe, a.id)
    else a == Planned(rec.fileHash, LocsOf(entries, plan)) && PlanFor(rec.chunks, probe, plan)
  }

  /** The head's reply to a download request, as text. */
  method ServeDownload(store: Store, name: string, probe: Probe, entries: seq<Placement.Entry>)
    returns (text: string, answer: Answer, plan: seq<Fetch>)
    ensures text == AnswerText(answer) && Answers(Queried(store.files, name), probe, entries, answer, plan)
  {
    hide SortedIds, Unanswered, GoodFetch;
    var rec := Queried(store.files, name);
    plan := [];
    if rec.chunks == [] {
      answer := if rec.fileHash == "" then NoSuchFile else EmptyFile(rec.fileHash);
      text := AnswerText(answer);
      return;
    }
    var fetches, missing := MakePlan(rec.chunks, probe);
    if fetches.None? {
      answer := Unverified(rec.fileHash, |SortedIds(rec.chunks)|, missing);
      text := AnswerText(answer);
      return;
    }
    plan := fetches.value;
    answer := Planned(rec.fileHash, LocsOf(entries, plan));
    text := SendPlan(rec.fileHash, plan, entries);
  }

  lemma VerdictIs(name: string, file: seq<byte>, sendSize: nat, backend: Backend, chunkSize: nat)
    requires IsToken(name) && |file| < TWO_64 && sendSize > 0 && chunkSize > 0
    ensures var records := RecordsFor(name, Split(file, sendSize), backend);
      HandleUpload(RequestLine(name, |file|, NumChunks(|file|, sendSize), HexSha256(file)),
                   SendFrom(0, Split(file, sendSize)), backend, chunkSize) ==
        if file != [] && records == [] then Rejected
        else Committed(name, HexSha256(file), if file == [] then [] else records)
  {
    hide HexSha256, HandleUpload, Split, SendFrom, Collected, AllTransfers, RequestLine, IsToken;
    SplitCount(file, sendSize);
    ClientUploadVerdict(name, file, sendSize, backend, chunkSize);
  }

  /** In a favourable world every chunk is recorded, and every recorded chunk answered. */
  lemma FavourableIsComplete(name: string, file: seq<byte>, sendSize: nat, backend: Backend, world: World)
    requires sendSize > 0 && Favourable(RecordsFor(name, Split(file, sendSize), backend), world, Split(file, sendSize))
    ensures var records := RecordsFor(name, Split(file, sendSize), backend);
      && (file != [] ==> records != [])
      && forall id | HasId(records, id) :: !Unanswered(records, world.probe, id)
  {
    hide HexSha256, RecordsFor, OriginalWins, OriginalIsServed, NoCollision, Unanswered;
    var pieces := Split(file, sendSize);
    var records := RecordsFor(name, pieces, backend);
    if file != [] {
      AnsweredIsRecorded(records, world.probe, 0, pieces[0]);
    }
    forall id | HasId(records, id)
      ensures !Unanswered(records, world.probe, id)
    {
      var i :| 0 <= i < |records| && records[i].chunkId == id;
      RecordIds(name, pieces, backend, records[i]);
      AnsweredIsRecorded(records, world.probe, id, pieces[id]);
    }
  }

  lemma TokenIsSomething(token: string)
    requires IsToken(token)
    ensures token != ""
  {}

  lemma EmptyOutcome(get: Server)
    ensures Outcome(HexSha256([]), [], get) == Some([])
  {}

  /** A client uploads a file and a client downloads it. A download that succeeds has the
      hash of the uploaded file whatever the replicas did in between, as long as no winning
      hash contains a line break. When every chunk has answering replicas among which its
      original hash out-votes every other, and those that report it serve it, the download
      succeeds with exactly the uploaded bytes. That is so, in particular, when every piece
      was stored by some server and the recorded servers are honest. */
  method UploadThenDownload(store: Store, name: string, file: seq<byte>, sendSize: nat,
                            backend: Backend, chunkSize: nat, factor: int, world: World)
    returns (stored: bool, out: Option<seq<byte>>)
    requires IsToken(name) && |file| < TWO_64 && sendSize > 0 && chunkSize > 0 && CleanBackend(backend)
    modifies store
    ensures stored <==> file == [] || RecordsFor(name, Split(file, sendSize), backend) != []
    ensures !stored ==> store.files == old(store.files) && out == None
    ensures OneLineWinners(RecordsFor(name, Split(file, sendSize), backend), world.probe) && out.Some? ==>
      HexSha256(out.value) == HexSha256(file)
    ensures Favourable(RecordsFor(name, Split(file, sendSize), backend), world, Split(file, sendSize)) ==>
      stored && out == Some(file)
    ensures var pieces := Split(file, sendSize);
      EachStored(pieces, backend) && Honest(RecordsFor(name, pieces, backend), world, pieces) ==>
      stored && out == Some(file)
  {
    hide HexSha256, EachStored, Honest, HandleUpload, Split, IsToken, RecordsFor, Favourable, CleanBackend, Outcome,
      SortedIds, ParseRequest, RequestText, FillCounts, FileCount, GoodFetch, Unanswered, RequestLine, SendFrom,
      NumChunks, ReadAnswer, AnswerText, OneLineWinners, PlanFor, OneLine, Answers;
    ghost var pieces := Split(file, sendSize);
    ghost var records := RecordsFor(name, pieces, backend);
    if EachStored(pieces, backend) && Honest(records, world, pieces) {
      HonestIsFavourable(name, pieces, backend, world);
    }
    var digest := HashFile(file, 64 * 1024);
    var line := RequestLine(name, |file|, NumChunks(|file|, sendSize), digest);
    var wire := SendFile(file, sendSize);
    VerdictIs(name, file, sendSize, backend, chunkSize);
    if Favourable(records, world, pieces) { FavourableIsComplete(name, file, sendSize, backend, world); }
    var verdict := HandleClientUpload(store, line, wire, backend, chunkSize, factor);
    if verdict.Rejected? { return false, None; }
    stored := true;
    DigestIsToken(file);
    TokenIsSomething(name);
    CommittedRecord(name, pieces, backend, digest, factor, verdict.records);
    ghost var rec := Queried(store.files, name);
    assert rec.fileHash == digest && rec.chunks == verdict.records;
    var text, answer, plan := ServeDownload(store, name, world.probe, world.entries);
    out := RunDownload(text, world.get);
    AnswerIs(name, file, sendSize, backend, world, rec, answer, plan);
  }

  /** What the client makes of the head's answer for a committed file. */
  lemma AnswerIs(name: string, file: seq<byte>, sendSize: nat, backend: Backend, world: World, rec: FileRecord,
                 answer: Answer, plan: seq<Fetch>)
    requires sendSize > 0 && CleanBackend(backend) && rec.fileHash == HexSha256(file)
    requires rec.chunks == if file == [] then [] else RecordsFor(name, Split(file, sendSize), backend)
    requires file != [] ==> rec.chunks != []
    requires Answers(rec, world.probe, world.entries, answer, plan)
    ensures var records, pieces := RecordsFor(name, Split(file, sendSize), backend), Split(file, sendSize);
      var r := ReadAnswer(AnswerText(answer));
      && (OneLineWinners(records, world.probe) && r.Places? ==> r.hash == HexSha256(file) != "")
      && (Favourable(records, world, pieces) ==>
            r.Places? && DistinctIds(r.locs) && Outcome(r.hash, r.locs, world.get) == Some(file))
  {
    hide HexSha256, Split, IsToken, RecordsFor, Favourable, CleanBackend, Outcome, SortedIds, GoodFetch,
      Unanswered, ReadAnswer, AnswerText, OneLineWinners, PlanFor, OneLine;
    var records, pieces := RecordsFor(name, Split(file, sendSize), backend), Split(file, sendSize);
    DigestIsToken(file);
    TokenIsOneLine(HexSha256(file));
    if file == [] {
      OtherAnswers(HexSha256(file), 0, 0);
      EmptyOutcome(world.get);
    } else {
      if Favourable(records, world, pieces) { FavourableIsComplete(name, file, sendSize, backend, world); }
      if answer.Unverified? {
        OtherAnswers(answer.hash, answer.count, answer.id);
      } else {
        if OneLineWinners(records, world.probe) {
          WinnersAreSafe(name, pieces, backend, world, plan, HexSha256(file));
        }
        if Favourable(records, world, pieces) {
          SplitCovers(file, sendSize);
          FavourableOutcome(name, file, pieces, backend, world, plan);
        }
      }
    }
  }
}
