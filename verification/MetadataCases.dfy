/** Runs of the metadata store at which its promises fail. */
module MetadataCases {
  import opened Basics
  import opened Text
  import opened Sha256Spec
  import opened Metadata
  import opened MetadataText
  import opened UploadText
  import opened Failover
  import opened Upload
  import opened MetadataRuns
  import Placement

  /** A cluster that sends every chunk to these servers and always stores it under `p`. */
  function Storing(servers: seq<string>): Backend {
    Backend(_ => servers, (_, _, _, _) => Some("p"))
  }

  function CopyAll(): Copier { (_, _, _, _, _) => Some("q") }

  lemma StoringIsPlain(servers: seq<string>)
    requires Placement.NoRepeats(servers) && forall i | 0 <= i < |servers| :: IsToken(servers[i])
    ensures SelectsOnce(Storing(servers)) && PlainBackend(Storing(servers))
  {
    assert IsToken("p");
    hide IsToken;
    forall k, id, server, data | server in Storing(servers).select(k)
      ensures IsToken(server) && NoSpaces(Storing(servers).send(k, id, server, data).value)
    {
      var i :| 0 <= i < |servers| && servers[i] == server;
    }
  }

  /** The records that an upload of one chunk leaves. */
  function Records(servers: seq<string>): seq<ChunkRecord> {
    seq(|servers|, i requires 0 <= i < |servers| => ChunkRecord(0, servers[i], "p", HexSha256([]), |servers|))
  }

  lemma {:induction false} AllSucceed(servers: seq<string>, pending: seq<Transfer>, n: nat)
    requires |pending| == |servers| && n <= |servers|
    requires forall i | 0 <= i < |servers| :: pending[i] == Transfer(0, servers[i], HexSha256([]), Some("p"))
    ensures Successes(pending[..n], 0) == n
  {
    hide HexSha256;
    if n > 0 {
      AllSucceed(servers, pending, n - 1);
      assert pending[..n][..n - 1] == pending[..n - 1];
    }
  }

  lemma {:induction false} CollectedRecords(servers: seq<string>, pending: seq<Transfer>, n: nat)
    requires |pending| == |servers| && n <= |servers|
    requires forall i | 0 <= i < |servers| :: pending[i] == Transfer(0, servers[i], HexSha256([]), Some("p"))
    ensures Collected("f", pending, n) == Records(servers)[..n]
  {
    hide HexSha256;
    AllSucceed(servers, pending, |pending|);
    assert pending[..|pending|] == pending;
    if n > 0 { CollectedRecords(servers, pending, n - 1); }
  }

  lemma OneChunkUploaded(servers: seq<string>)
    ensures var pending := AllTransfers(Storing(servers), [Chunk(0, [])]);
      Collected("f", pending, |pending|) == Records(servers)
  {
    hide HexSha256, Collected;
    var b, c := Storing(servers), Chunk(0, []);
    assert [c][..0] == [];
    assert AllTransfers(b, [c]) == [] + TransfersOf(b, 0, c);
    var pending := AllTransfers(b, [c]);
    CollectedRecords(servers, pending, |pending|);
    assert Records(servers)[..|servers|] == Records(servers);
  }

  /** The plan for a chunk held by `a` and the dead `d` names `b`. */
  lemma PlanNamesB()
    ensures exists r ::
      r in Additions("f", Records(["a", "d"]), "d", ["b"], CopyAll()) && r.chunkId == 0 && r.server == "b"
  {
    hide HexSha256, Additions, RepairOf;
    var chunks := Records(["a", "d"]);
    var added := Additions("f", chunks, "d", ["b"], CopyAll());
    assert chunks[0] in chunks && chunks[1] in chunks;
    assert Survives(chunks[0], 0, "d") && FirstSurvivor(chunks, 0, "d", 0);
    assert FirstFree(chunks, 0, ["b"], 0);
    assert Copied("f", chunks, 0, "d", ["b"], CopyAll());
    RepairIffCopied("f", chunks, 0, "d", ["b"], CopyAll());
    AdditionsAre("f", chunks, "d", ["b"], CopyAll());
    var r := RepairOf("f", chunks, 0, "d", ["b"], CopyAll()).value;
    RepairedFrom("f", chunks, 0, "d", ["b"], CopyAll());
    assert r in added && r.server == "b";
  }

  lemma Names()
    ensures IsToken("f") && IsToken("h") && IsToken("a") && IsToken("b") && IsToken("d")
    ensures Placement.NoRepeats(["a", "d"]) && PlainFailover("d", ["b"], CopyAll())
  {
    assert IsToken("q");
    assert ["a", "d"][0] != ["a", "d"][1];
  }

  lemma BHolds()
    ensures Holds(Records(["b"]), 0, "b")
  {
    hide HexSha256;
    assert Records(["b"])[0] in Records(["b"]);
  }

  /** Upload, plan, upload again onto the planned server, commit: the chunk then has two
      records on one server. */
  lemma StaleCommit() returns (states: seq<State>, events: seq<Event>)
    ensures IsRun(states, events) && |events| == 5 && events[4] == FailoverCommitted(0) && !Good(states[5].files)
  {
    hide HexSha256, AllTransfers, Collected, Commit, Additions, Records, IsToken, PlainBackend, SelectsOnce, CommitPlan,
      PlainFailover, Sound, Holds;
    var c := [Chunk(0, [])];
    var e0, e3 := Uploaded("f", "h", c, Storing(["a", "d"]), 1), Uploaded("f", "h", c, Storing(["b"]), 1);
    var e1, e2, e4 := FailoverBegun(0, "d", ["b"], CopyAll()), FilePlanned(0, "f"), FailoverCommitted(0);
    Names();
    StoringIsPlain(["a", "d"]);
    StoringIsPlain(["b"]);
    OneChunkUploaded(["a", "d"]);
    OneChunkUploaded(["b"]);
    EmptyIsSound();
    PlanNamesB();
    BHolds();
    var s0 := State(map[], map[]);
    var s1 := Step(s0, e0);
    UploadIsSound(s0, e0);
    var s2 := Step(s1, e1);
    var s3 := Step(s2, e2);
    var s4 := Step(s3, e3);
    UploadIsSound(s3, e3);
    states, events := [s0, s1, s2, s3, s4, Step(s4, e4)], [e0, e1, e2, e3, e4];
    var added := Additions("f", Records(["a", "d"]), "d", ["b"], CopyAll());
    assert s4.plans[0].updates["f"] == added && s4.files["f"].chunks == Records(["b"]);
    assert !Timely(s4, e4);
    RunStaysGoodIff(states, events, 4);
  }

  /** A restart after the upload of an empty file under a negative replication factor: the
      count of the file comes back as zero. */
  lemma RestartChangesCount() returns (states: seq<State>, events: seq<Event>)
    ensures IsRun(states, events) && |events| == 2 && events[1] == Restarted(["f"])
    ensures states[2].files != states[1].files && states[1].files == map["f" := FileRecord("h", -1, [])]
  {
    hide HexSha256, IsToken, PlainBackend, SelectsOnce, Load, Dump, Commit;
    Names();
    StoringIsPlain(["b"]);
    var e0, e1 := Uploaded("f", "h", [], Storing(["b"]), -1), Restarted(["f"]);
    var s0 := State(map[], map[]);
    assert AllTransfers(Storing(["b"]), []) == [];
    assert Collected("f", [], 0) == [] && FillCounts([]) == [];
    CommitIs(map[], "f", "h", [], -1);
    var s1 := Step(s0, e0);
    assert s1.files == map["f" := FileRecord("h", -1, [])];
    assert ["f"][0] in ["f"];
    assert IsOrder(["f"], s1.files.Keys);
    states, events := [s0, s1, Step(s1, e1)], [e0, e1];
    RestartIsIdentity(s1.files, ["f"]);
    assert !Durable(s1.files["f"]);
  }

  /** A record without a checksum reads its count back as one. */
  lemma EmptyChecksumIsLost()
    ensures var files := map["f" := FileRecord("h", 1, [ChunkRecord(0, "a", "b", "", 1)])];
      Writable(files) && Load(Dump(files, ["f"])) != files
  {
    hide IsToken, Load, Dump;
    Names();
    var files := map["f" := FileRecord("h", 1, [ChunkRecord(0, "a", "b", "", 1)])];
    assert ["f"][0] in ["f"];
    assert IsOrder(["f"], files.Keys);
    RestartIsIdentity(files, ["f"]);
    assert files["f"].chunks[0].checksum == "";
  }
}
