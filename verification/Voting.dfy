/** How the head server decides what a chunk should hash to and where to fetch it: the
    voting half of `stream_file_to_client`. Load scores are real numbers. */
module Voting {
  import opened Basics
  import opened Lex
  import opened Metadata
  import opened Failover

  /** A replica's successful answer. */
  datatype Report = Report(hash: string, connections: int, load: real)

  /** Asking one replica for its hash: `None` when it does not answer or has no data. */
  type Probe = ChunkRecord -> Option<Report>

  /** An answer together with the recorded location that was asked. */
  datatype Reply = Reply(server: string, hash: string, connections: int, load: real)

  function ReplyOf(r: ChunkRecord, report: Report): Reply {
    Reply(r.server, report.hash, report.connections, report.load)
  }

  datatype Fetch = Fetch(id: int, server: string, hash: string)

  function Votes(replies: seq<Reply>, hash: string): nat {
    if replies == [] then 0
    else Votes(replies[..|replies| - 1], hash) + (if replies[|replies| - 1].hash == hash then 1 else 0)
  }

  /** The most votes, and the smallest hash among equals. */
  ghost predicate Wins(replies: seq<Reply>, hash: string) {
    && Votes(replies, hash) > 0
    && forall other :: other != hash ==>
         Votes(replies, other) < Votes(replies, hash) ||
         (Votes(replies, other) == Votes(replies, hash) && Less(hash, other))
  }

  /** Fewer connections first, then lower load. */
  predicate Better(a: Reply, b: Reply) {
    a.connections < b.connections || (a.connections == b.connections && a.load < b.load)
  }

  /** The chosen server reported the winning hash, and none that did is better. */
  ghost predicate WellPlaced(replies: seq<Reply>, hash: string, server: string) {
    exists best :: best in replies && best.hash == hash && best.server == server &&
      forall r | r in replies && r.hash == hash :: !Better(r, best)
  }

  function RepliesOf(records: seq<ChunkRecord>, probe: Probe): seq<Reply> {
    if records == [] then []
    else
      RepliesOf(records[..|records| - 1], probe) +
      match probe(records[|records| - 1])
      case None => []
      case Some(report) => [ReplyOf(records[|records| - 1], report)]
  }

  /** The answers that report a hash, in order. */
  function Reporting(replies: seq<Reply>, hash: string): seq<Reply> {
    if replies == [] then []
    else Reporting(replies[..|replies| - 1], hash) +
         (if replies[|replies| - 1].hash == hash then [replies[|replies| - 1]] else [])
  }

  // ---- counting

  lemma {:induction false} ReportingContents(replies: seq<Reply>, hash: string)
    ensures forall r :: r in Reporting(replies, hash) <==> r in replies && r.hash == hash
  {
    if replies != [] {
      var n := |replies| - 1;
      ReportingContents(replies[..n], hash);
      assert replies == replies[..n] + [replies[n]];
    }
  }

  lemma VotesSnoc(replies: seq<Reply>, i: nat, h: string)
    requires i < |replies|
    ensures Votes(replies[..i + 1], h) == Votes(replies[..i], h) + (if replies[i].hash == h then 1 else 0)
    ensures Reporting(replies[..i + 1], h) ==
      Reporting(replies[..i], h) + (if replies[i].hash == h then [replies[i]] else [])
  {
    assert replies[..i + 1][..i] == replies[..i];
  }

  lemma NoVotes()
    ensures forall h :: Votes([], h) == 0 && Reporting([], h) == []
  {}

  lemma {:induction false} VotesSeen(replies: seq<Reply>, hash: string)
    ensures Votes(replies, hash) > 0 <==> exists r :: r in replies && r.hash == hash
  {
    if replies != [] {
      var n := |replies| - 1;
      VotesSeen(replies[..n], hash);
      assert replies == replies[..n] + [replies[n]];
      assert replies[n] in replies;
    }
  }

  lemma {:induction false} VotesAddUp(replies: seq<Reply>, a: string, b: string)
    requires a != b
    ensures Votes(replies, a) + Votes(replies, b) <= |replies|
  {
    if replies != [] {
      VotesAddUp(replies[..|replies| - 1], a, b);
    }
  }

  /** There is only one winner. */
  lemma WinnerIsUnique(replies: seq<Reply>, a: string, b: string)
    requires Wins(replies, a) && Wins(replies, b)
    ensures a == b
  {
    LessIsStrict(a, b);
  }

  /** A hash that out-votes every other wins; in particular one with a strict majority. */
  lemma MajorityWins(replies: seq<Reply>, hash: string, winner: string)
    requires Wins(replies, winner)
    requires 2 * Votes(replies, hash) > |replies| ||
             (Votes(replies, hash) > 0 &&
               forall other :: other != hash ==> Votes(replies, other) < Votes(replies, hash))
    ensures winner == hash
  {
    if winner != hash {
      VotesAddUp(replies, winner, hash);
    }
  }

  // ---- the loops

  /** `hash_counts` and `hash_to_servers` after all answers are in. */
  method CountVotes(replies: seq<Reply>)
    returns (counts: map<string, int>, servers: map<string, seq<Reply>>)
    ensures counts.Keys == servers.Keys
    ensures forall h :: h in counts <==> Votes(replies, h) > 0
    ensures forall h | h in counts :: counts[h] == Votes(replies, h)
    ensures forall h | h in servers :: servers[h] == Reporting(replies, h)
  {
    NoVotes();
    hide Votes, Reporting;
    counts, servers := map[], map[];
    for i := 0 to |replies|
      invariant counts.Keys == servers.Keys
      invariant forall h | h in counts ::
        counts[h] == Votes(replies[..i], h) > 0 && servers[h] == Reporting(replies[..i], h)
      invariant forall h | h !in counts :: Votes(replies[..i], h) == 0 && Reporting(replies[..i], h) == []
    {
      var reply := replies[i];
      var h := reply.hash;
      forall other
        ensures Votes(replies[..i + 1], other) == Votes(replies[..i], other) + (if h == other then 1 else 0)
        ensures Reporting(replies[..i + 1], other) ==
          Reporting(replies[..i], other) + (if h == other then [reply] else [])
      {
        VotesSnoc(replies, i, other);
      }
      counts := counts[h := (if h in counts then counts[h] else 0) + 1];
      servers := servers[h := (if h in servers then servers[h] else []) + [reply]];
    }
    assert replies[..|replies|] == replies;
  }

  /** The scan over the ordered map that keeps the first hash with the highest count. */
  method PickHash(counts: map<string, int>, ghost replies: seq<Reply>) returns (winner: string)
    requires counts != map[]
    requires forall h :: h in counts <==> Votes(replies, h) > 0
    requires forall h | h in counts :: counts[h] == Votes(replies, h)
    ensures Wins(replies, winner)
  {
    hide Votes;
    var todo, most := counts.Keys, 0;
    winner := "";
    while todo != {}
      invariant todo <= counts.Keys && most >= 0
      invariant most > 0 ==> winner in counts.Keys - todo && counts[winner] == most
      invariant most == 0 ==> todo == counts.Keys
      invariant forall h | h in counts.Keys - todo ::
        && counts[h] <= most && (counts[h] == most ==> AtMost(winner, h))
        && forall later | later in todo :: Less(h, later)
      decreases |todo|
    {
      var hash := Least(todo);
      forall later | later in todo - {hash}
        ensures Less(hash, later)
      {
        assert AtMost(hash, later);
      }
      if counts[hash] > most {
        most, winner := counts[hash], hash;
      }
      todo := todo - {hash};
    }
  }

  method PickServer(servers: seq<Reply>) returns (best: Reply)
    requires servers != []
    ensures best in servers && forall r | r in servers :: !Better(r, best)
  {
    best := servers[0];
    for i := 1 to |servers|
      invariant best in servers && forall j | 0 <= j < i :: !Better(servers[j], best)
    {
      if Better(servers[i], best) {
        best := servers[i];
      }
    }
  }

  // ---- votes counted on the records themselves

  /** The replica recorded at index `i` answers for the chunk. */
  ghost predicate Answering(chunks: seq<ChunkRecord>, probe: Probe, id: int, i: int) {
    0 <= i < |chunks| && chunks[i].chunkId == id && probe(chunks[i]).Some?
  }

  ghost predicate Unanswered(chunks: seq<ChunkRecord>, probe: Probe, id: int) {
    forall i :: !Answering(chunks, probe, id, i)
  }

  ghost function Answerers(chunks: seq<ChunkRecord>, probe: Probe, id: int): set<int> {
    set i | 0 <= i < |chunks| && Answering(chunks, probe, id, i)
  }

  /** The indices of the records whose replica reports the hash. */
  ghost function Voters(chunks: seq<ChunkRecord>, probe: Probe, id: int, hash: string): set<int> {
    set i | 0 <= i < |chunks| && Answering(chunks, probe, id, i) && probe(chunks[i]).value.hash == hash
  }

  /** The most voters, and the smallest hash among equals. */
  ghost predicate Elected(chunks: seq<ChunkRecord>, probe: Probe, id: int, hash: string) {
    && |Voters(chunks, probe, id, hash)| > 0
    && forall other :: other != hash ==>
         |Voters(chunks, probe, id, other)| < |Voters(chunks, probe, id, hash)| ||
         (|Voters(chunks, probe, id, other)| == |Voters(chunks, probe, id, hash)| && Less(hash, other))
  }

  /** The answer of the replica recorded at index `i`. */
  ghost function ReplyAt(chunks: seq<ChunkRecord>, probe: Probe, id: int, i: int): Reply
    requires Answering(chunks, probe, id, i)
  {
    ReplyOf(chunks[i], probe(chunks[i]).value)
  }

  /** The replica at index `i` reports the hash, and of those that do none has fewer
      connections, nor as few at a lower load. */
  ghost predicate BestVoter(chunks: seq<ChunkRecord>, probe: Probe, id: int, hash: string, i: int) {
    && i in Voters(chunks, probe, id, hash)
    && var best := probe(chunks[i]).value;
       forall j | j in Voters(chunks, probe, id, hash) ::
         var other := probe(chunks[j]).value;
         best.connections < other.connections || (best.connections == other.connections && best.load <= other.load)
  }

  /** A fetch of the elected hash from a best server that reported it. */
  ghost predicate GoodFetch(chunks: seq<ChunkRecord>, probe: Probe, f: Fetch) {
    && Elected(chunks, probe, f.id, f.hash)
    && exists i :: BestVoter(chunks, probe, f.id, f.hash, i) && chunks[i].server == f.server
  }

  /** The replies about one chunk are the answers of its replicas, every one of them, in the
      order of the records. */
  ghost predicate Lists(from: seq<int>, chunks: seq<ChunkRecord>, probe: Probe, id: int, replies: seq<Reply>) {
    && |from| == |replies| && Ascending(from)
    && (forall k | 0 <= k < |from| ::
          Answering(chunks, probe, id, from[k]) && replies[k] == ReplyAt(chunks, probe, id, from[k]))
    && forall i | Answering(chunks, probe, id, i) :: i in from
  }

  ghost function LastReply(last: ChunkRecord, probe: Probe, id: int): seq<Reply> {
    if last.chunkId == id && probe(last).Some? then [ReplyOf(last, probe(last).value)] else []
  }

  lemma RepliesSnoc(init: seq<ChunkRecord>, last: ChunkRecord, probe: Probe, id: int)
    ensures RepliesOf(RecordsOf(init + [last], id), probe) ==
      RepliesOf(RecordsOf(init, id), probe) + LastReply(last, probe, id)
  {
    var chunks, records := init + [last], RecordsOf(init, id);
    assert chunks[..|init|] == init;
    if last.chunkId == id {
      assert RecordsOf(chunks, id) == records + [last];
      assert (records + [last])[..|records|] == records;
    } else {
      assert RecordsOf(chunks, id) == records;
    }
  }

  lemma AnsweringSnoc(init: seq<ChunkRecord>, last: ChunkRecord, probe: Probe, id: int, i: int)
    ensures Answering(init + [last], probe, id, i) <==>
      Answering(init, probe, id, i) || (i == |init| && last.chunkId == id && probe(last).Some?)
  {}

  lemma {:induction false} RepliesInOrder(chunks: seq<ChunkRecord>, probe: Probe, id: int) returns (from: seq<int>)
    ensures Lists(from, chunks, probe, id, RepliesOf(RecordsOf(chunks, id), probe))
  {
    from := [];
    if chunks != [] {
      var n := |chunks| - 1;
      var init, last := chunks[..n], chunks[n];
      assert chunks == init + [last];
      RepliesSnoc(init, last, probe, id);
      from := RepliesInOrder(init, probe, id);
      hide RepliesOf, RecordsOf;
      ListsSnoc(from, init, last, probe, id, RepliesOf(RecordsOf(init, id), probe));
      hide Lists;
      if last.chunkId == id && probe(last).Some? { from := from + [n]; } else { assert from + [] == from; }
    }
  }

  lemma ListsSnoc(from: seq<int>, init: seq<ChunkRecord>, last: ChunkRecord, probe: Probe, id: int,
                  replies: seq<Reply>)
    requires Lists(from, init, probe, id, replies)
    ensures Lists(from + (if last.chunkId == id && probe(last).Some? then [|init|] else []),
                  init + [last], probe, id, replies + LastReply(last, probe, id))
  {
    var chunks := init + [last];
    forall i
      ensures Answering(chunks, probe, id, i) <==>
        Answering(init, probe, id, i) || (i == |init| && last.chunkId == id && probe(last).Some?)
    {
      AnsweringSnoc(init, last, probe, id, i);
    }
    assert forall k | 0 <= k < |from| :: Answering(init, probe, id, from[k]) && chunks[from[k]] == init[from[k]];
  }

  lemma VotersSnoc(init: seq<ChunkRecord>, last: ChunkRecord, probe: Probe, id: int, hash: string)
    ensures Voters(init + [last], probe, id, hash) ==
      Voters(init, probe, id, hash) +
      if last.chunkId == id && probe(last).Some? && probe(last).value.hash == hash then {|init|} else {}
  {
    var chunks := init + [last];
    assert chunks[|init|] == last;
    assert forall i | 0 <= i < |init| :: chunks[i] == init[i];
  }

  lemma VotesAppend(replies: seq<Reply>, reply: Reply, hash: string)
    ensures Votes(replies + [reply], hash) == Votes(replies, hash) + if reply.hash == hash then 1 else 0
  {
    assert (replies + [reply])[..|replies|] == replies;
  }

  /** A hash has as many votes among the replies as there are records whose replica reports it. */
  lemma {:induction false} VotesAreVoters(chunks: seq<ChunkRecord>, probe: Probe, id: int, hash: string)
    ensures Votes(RepliesOf(RecordsOf(chunks, id), probe), hash) == |Voters(chunks, probe, id, hash)|
  {
    if chunks == [] {
      assert Voters(chunks, probe, id, hash) == {};
    } else {
      var n := |chunks| - 1;
      var init, last := chunks[..n], chunks[n];
      assert chunks == init + [last];
      VotesAreVoters(init, probe, id, hash);
      VotersSnoc(init, last, probe, id, hash);
      RepliesSnoc(init, last, probe, id);
      assert n !in Voters(init, probe, id, hash);
      hide RepliesOf, RecordsOf, Votes, Voters;
      var replies := RepliesOf(RecordsOf(init, id), probe);
      if last.chunkId == id && probe(last).Some? {
        VotesAppend(replies, ReplyOf(last, probe(last).value), hash);
      } else {
        assert replies + [] == replies;
      }
    }
  }

  lemma NoReplies(chunks: seq<ChunkRecord>, probe: Probe, id: int)
    ensures RepliesOf(RecordsOf(chunks, id), probe) == [] <==> Unanswered(chunks, probe, id)
  {
    hide RepliesOf, RecordsOf;
    var from := RepliesInOrder(chunks, probe, id);
    if RepliesOf(RecordsOf(chunks, id), probe) != [] {
      assert Answering(chunks, probe, id, from[0]);
    }
  }

  /** A decision on the replies is the election on the records. */
  lemma DecisionIsGood(chunks: seq<ChunkRecord>, probe: Probe, f: Fetch)
    requires var replies := RepliesOf(RecordsOf(chunks, f.id), probe);
      Wins(replies, f.hash) && WellPlaced(replies, f.hash, f.server)
    ensures GoodFetch(chunks, probe, f)
  {
    hide RepliesOf, RecordsOf, Votes;
    var replies := RepliesOf(RecordsOf(chunks, f.id), probe);
    forall h
      ensures Votes(replies, h) == |Voters(chunks, probe, f.id, h)|
    {
      VotesAreVoters(chunks, probe, f.id, h);
    }
    assert Elected(chunks, probe, f.id, f.hash);
    var best :| best in replies && best.hash == f.hash && best.server == f.server &&
      forall r | r in replies && r.hash == f.hash :: !Better(r, best);
    var from := RepliesInOrder(chunks, probe, f.id);
    var k :| 0 <= k < |replies| && replies[k] == best;
    forall j | j in Voters(chunks, probe, f.id, f.hash)
      ensures !Better(ReplyAt(chunks, probe, f.id, j), best)
    {
      assert j in from;
    }
    assert BestVoter(chunks, probe, f.id, f.hash, from[k]);
  }

  /** A planned server holds a record of the chunk. */
  lemma PlacedIsHeld(chunks: seq<ChunkRecord>, probe: Probe, f: Fetch)
    requires GoodFetch(chunks, probe, f)
    ensures Holds(chunks, f.id, f.server)
  {
    hide Elected, Better;
    var i :| BestVoter(chunks, probe, f.id, f.hash, i) && chunks[i].server == f.server;
    assert chunks[i] in chunks;
  }

  /** There is only one elected hash, and one that out-votes every other is elected. */
  lemma ElectedIsUnique(chunks: seq<ChunkRecord>, probe: Probe, id: int, a: string, b: string)
    requires Elected(chunks, probe, id, a)
    requires Elected(chunks, probe, id, b) ||
             forall other :: other != b ==> |Voters(chunks, probe, id, other)| < |Voters(chunks, probe, id, b)|
    ensures a == b
  {
    hide Voters;
    LessIsStrict(a, b);
  }

  /** A hash that more than half of the answering replicas report is elected. */
  lemma MajorityElected(chunks: seq<ChunkRecord>, probe: Probe, id: int, hash: string)
    requires 2 * |Voters(chunks, probe, id, hash)| > |Answerers(chunks, probe, id)|
    ensures Elected(chunks, probe, id, hash)
  {
    var all, mine := Answerers(chunks, probe, id), Voters(chunks, probe, id, hash);
    forall other | other != hash
      ensures |Voters(chunks, probe, id, other)| < |mine|
    {
      var theirs := Voters(chunks, probe, id, other);
      assert mine * theirs == {} && mine + theirs <= all;
      assert all == (mine + theirs) + (all - (mine + theirs));
    }
  }

  method Decide(id: int, replies: seq<Reply>) returns (f: Fetch)
    requires replies != []
    ensures f.id == id && Wins(replies, f.hash) && WellPlaced(replies, f.hash, f.server)
  {
    hide Wins, Better;
    var counts, servers := CountVotes(replies);
    VotesSeen(replies, replies[0].hash);
    assert replies[0] in replies && replies[0].hash in counts;
    var hash := PickHash(counts, replies);
    WinnerVoted(replies, hash);
    VotesSeen(replies, hash);
    ReportingContents(replies, hash);
    assert servers[hash] != [];
    var best := PickServer(servers[hash]);
    f := Fetch(id, best.server, hash);
  }

  lemma WinnerVoted(replies: seq<Reply>, hash: string)
    requires Wins(replies, hash)
    ensures Votes(replies, hash) > 0
  {}

  method GatherReplies(records: seq<ChunkRecord>, probe: Probe) returns (replies: seq<Reply>)
    ensures replies == RepliesOf(records, probe)
  {
    replies := [];
    for i := 0 to |records|
      invariant replies == RepliesOf(records[..i], probe)
    {
      var answer := probe(records[i]);
      if answer.Some? {
        replies := replies + [ReplyOf(records[i], answer.value)];
      }
      assert records[..i + 1][..i] == records[..i];
    }
    assert records[..|records|] == records;
  }

  /** The fetch plan: every chunk id once, in ascending order, or no plan at all when some
      chunk has no replica that answers; then the first such chunk is named. */
  method MakePlan(chunks: seq<ChunkRecord>, probe: Probe) returns (plan: Option<seq<Fetch>>, missing: int)
    ensures plan.None? <==> exists id :: HasId(chunks, id) && Unanswered(chunks, probe, id)
    ensures plan.None? ==> HasId(chunks, missing) && Unanswered(chunks, probe, missing)
    ensures plan.None? ==> forall id | HasId(chunks, id) && id < missing :: !Unanswered(chunks, probe, id)
    ensures plan.Some? ==> |plan.value| == |SortedIds(chunks)|
    ensures plan.Some? ==> forall i | 0 <= i < |plan.value| ::
      plan.value[i].id == SortedIds(chunks)[i] && GoodFetch(chunks, probe, plan.value[i])
  {
    hide RepliesOf, RecordsOf, SortedIds, Wins, WellPlaced, Unanswered, GoodFetch;
    var ids := SortedIds(chunks);
    forall id
      ensures id in ids <==> HasId(chunks, id)
    {
      SortedIdsMembers(chunks, id);
    }
    var fetches: seq<Fetch> := [];
    for i := 0 to |ids|
      invariant |fetches| == i
      invariant forall j | 0 <= j < i :: !Unanswered(chunks, probe, ids[j])
      invariant forall j | 0 <= j < i :: fetches[j].id == ids[j] && GoodFetch(chunks, probe, fetches[j])
    {
      NoReplies(chunks, probe, ids[i]);
      var replies := GatherReplies(RecordsOf(chunks, ids[i]), probe);
      if replies == [] {
        assert HasId(chunks, ids[i]);
        SortedIdsAscend(chunks);
        assert forall id | HasId(chunks, id) && id < ids[i] :: id in ids;
        return None, ids[i];
      }
      var f := Decide(ids[i], replies);
      DecisionIsGood(chunks, probe, f);
      fetches := fetches + [f];
    }
    plan, missing := Some(fetches), 0;
  }
}
