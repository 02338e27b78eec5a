/** The client side of a download: read the plan, fetch every planned chunk in parallel, check each hash,
    put the chunks together in order and check the whole file. */
module Download {
  import opened Basics
  import opened Sha256Spec
  import opened Sha256Stream
  import opened Dialogue

  /** What a cluster server sends back for a planned chunk: `None` on any failure. */
  type Server = Loc -> Option<seq<byte>>

  ghost predicate DistinctIds(plan: seq<Loc>) {
    forall i, j | 0 <= i < j < |plan| :: plan[i].id != plan[j].id
  }

  predicate Arrived(f: Loc, get: Server) { get(f).Some? && HexSha256(get(f).value) == f.hash }

  ghost predicate AllArrived(plan: seq<Loc>, get: Server) {
    forall i | 0 <= i < |plan| :: Arrived(plan[i], get)
  }

  /** The bytes at position `id`: nothing when the plan skips that number. */
  function PieceAt(plan: seq<Loc>, get: Server, id: int): seq<byte> {
    if plan == [] then []
    else if plan[0].id == id && get(plan[0]).Some? then get(plan[0]).value
    else PieceAt(plan[1..], get, id)
  }

  function Assembled(plan: seq<Loc>, get: Server, n: nat): seq<byte> {
    if n == 0 then [] else Assembled(plan, get, n - 1) + PieceAt(plan, get, n - 1)
  }

  /** The result of a download whose plan names every chunk once. */
  ghost function Outcome(fileHash: string, plan: seq<Loc>, get: Server): Option<seq<byte>> {
    var out := Assembled(plan, get, |plan|);
    if AllArrived(plan, get) && (fileHash == "" || HexSha256(out) == fileHash) then Some(out) else None
  }

  lemma {:induction false} PieceOf(plan: seq<Loc>, get: Server, i: nat)
    requires DistinctIds(plan) && i < |plan| && get(plan[i]).Some?
    ensures PieceAt(plan, get, plan[i].id) == get(plan[i]).value
  {
    if i > 0 {
      assert plan[0].id != plan[i].id;
      PieceOf(plan[1..], get, i - 1);
    }
  }

  lemma {:induction false} NoPiece(plan: seq<Loc>, get: Server, id: int)
    requires forall i | 0 <= i < |plan| :: plan[i].id != id
    ensures PieceAt(plan, get, id) == []
  {
    if plan != [] {
      NoPiece(plan[1..], get, id);
    }
  }

  /** The download threads, finishing in any order, each under the mutex. */
  method FetchAll(plan: seq<Loc>, get: Server) returns (failed: bool, data: map<int, seq<byte>>)
    ensures failed <==> !AllArrived(plan, get)
    ensures !failed ==> forall id :: id in data <==> exists i :: 0 <= i < |plan| && plan[i].id == id
    ensures !failed && DistinctIds(plan) ==> forall i | 0 <= i < |plan| :: data[plan[i].id] == get(plan[i]).value
  {
    hide HexSha256;
    failed, data := false, map[];
    var running := Indices(|plan|);
    while running != {}
      invariant forall i | i in running :: 0 <= i < |plan|
      invariant failed <==> exists i :: 0 <= i < |plan| && i !in running && !Arrived(plan[i], get)
      invariant !failed ==> forall id :: id in data <==>
        exists i :: 0 <= i < |plan| && i !in running && plan[i].id == id
      invariant !failed && DistinctIds(plan) ==>
        forall i | 0 <= i < |plan| && i !in running :: data[plan[i].id] == get(plan[i]).value
      decreases |running|
    {
      var i :| i in running;
      ghost var before := running;
      running := running - {i};
      var answer := get(plan[i]);
      var ok := answer.Some?;
      if ok {
        var hash := HashOf(answer.value);
        ok := hash == plan[i].hash;
      }
      assert ok <==> Arrived(plan[i], get);
      assert forall j | 0 <= j < |plan| :: j !in running <==> j !in before || j == i;
      if ok {
        data := data[plan[i].id := answer.value];
      } else {
        failed := true;
      }
    }
  }

  /** `file_download` after the plan has arrived. Whatever the servers send, success means
      that every chunk matched its planned hash and the output has the file's hash. */
  method DownloadFile(fileHash: string, plan: seq<Loc>, get: Server) returns (out: Option<seq<byte>>)
    ensures out.Some? ==> AllArrived(plan, get) && (fileHash != "" ==> HexSha256(out.value) == fileHash)
    ensures DistinctIds(plan) ==> out == Outcome(fileHash, plan, get)
  {
    hide HexSha256, Sha256.Absorbed;
    var failed, data := FetchAll(plan, get);
    if failed { return None; }
    var bytes := [];
    var hasher := new Sha256();
    for i := 0 to |plan|
      invariant hasher.Valid() && fresh(hasher) && fresh(hasher.data) && fresh(hasher.state)
      invariant hasher.Message() == bytes
      invariant DistinctIds(plan) ==> bytes == Assembled(plan, get, i)
    {
      var piece := if i in data then data[i] else [];
      if DistinctIds(plan) {
        PieceIs(plan, get, data, i);
      }
      hasher.Update(piece);
      bytes := bytes + piece;
    }
    var digest := hasher.Digest();
    if fileHash != "" && digest != fileHash { return None; }
    out := Some(bytes);
  }

  lemma PieceIs(plan: seq<Loc>, get: Server, data: map<int, seq<byte>>, id: int)
    requires DistinctIds(plan) && AllArrived(plan, get)
    requires forall id :: id in data <==> exists i :: 0 <= i < |plan| && plan[i].id == id
    requires forall i | 0 <= i < |plan| :: data[plan[i].id] == get(plan[i]).value
    ensures PieceAt(plan, get, id) == if id in data then data[id] else []
  {
    hide HexSha256;
    if id in data {
      var i :| 0 <= i < |plan| && plan[i].id == id;
      assert Arrived(plan[i], get);
      PieceOf(plan, get, i);
    } else {
      NoPiece(plan, get, id);
    }
  }

  /** `file_download`: the dialogue, the threads and the reassembly. Success means that every
      chunk read off the dialogue matched its hash, and so did the whole output. */
  method RunDownload(text: string, get: Server) returns (out: Option<seq<byte>>)
    ensures ReadAnswer(text).Refused? ==> out == None
    ensures out.Some? ==> ReadAnswer(text).Places? && AllArrived(ReadAnswer(text).locs, get)
    ensures out.Some? && ReadAnswer(text).hash != "" ==> HexSha256(out.value) == ReadAnswer(text).hash
    ensures ReadAnswer(text).Places? && DistinctIds(ReadAnswer(text).locs) ==>
      out == Outcome(ReadAnswer(text).hash, ReadAnswer(text).locs, get)
  {
    hide HexSha256, ReadAnswer, Outcome;
    var reading := ReceiveAnswer(text);
    if reading.Refused? { return None; }
    out := DownloadFile(reading.hash, reading.locs, get);
  }
}
