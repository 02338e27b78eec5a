/** The ZooKeeper monitor: it rediscovers the head servers, checks them and keeps exactly
    one of them flagged as leader. */
module LeaderElection {

  import opened Lex
  import opened Text

  /** The part of a server record that elections and checks only read. */
  datatype Profile = Profile(
    serverId: string, ip: string, port: int, cpu: real, memory: real, connections: int, consecutiveFailures: int)

  datatype Server = Server(profile: Profile, isLeader: bool, status: string)

  type Servers = map<string, Server>

  /** Less loaded in both respects. */
  predicate Beats(a: Profile, b: Profile) { a.cpu < b.cpu && a.memory < b.memory }

  predicate SameLoad(a: Profile, b: Profile) { a.cpu == b.cpu && a.memory == b.memory }

  /** What a discovery pass finds under a name: no data, data that does not parse, or a
      record, which never carries the leader flag. */
  datatype Found = Nothing | Garbled | Record(server: Server)

  /** At most one server is flagged, it is the recorded leader, and every server is filed
      under its own id. */
  ghost predicate OneLeader(servers: Servers, leaderId: string) {
    forall id | id in servers :: servers[id].profile.serverId == id && (servers[id].isLeader ==> id == leaderId)
  }

  /** An election may change flags and states, nothing else. */
  ghost predicate SameMembers(a: Servers, b: Servers) {
    && a.Keys == b.Keys
    && forall id | id in a :: a[id].profile == b[id].profile
  }

  /** The candidate that the election wants among the usable servers: nobody beats it, and
      it is the first by id of those loaded like it. */
  ghost predicate BestOf(servers: Servers, usable: set<string>, id: string) {
    && usable <= servers.Keys && id in usable
    && forall u | u in usable ::
         var p, q := servers[u].profile, servers[id].profile;
         !(p.cpu < q.cpu && p.memory < q.memory) && (p.cpu == q.cpu && p.memory == q.memory ==> AtMost(id, u))
  }

  /** The fallback: fewest consecutive failures, first by id among equals. */
  ghost predicate LeastUnhealthy(servers: Servers, id: string) {
    && id in servers
    && forall u | u in servers ::
         && servers[id].profile.consecutiveFailures <= servers[u].profile.consecutiveFailures
         && (servers[id].profile.consecutiveFailures == servers[u].profile.consecutiveFailures ==> AtMost(id, u))
  }

  /** There is only one best candidate that no other candidate ties or trades with. */
  lemma ClearWinner(servers: Servers, usable: set<string>, elected: string, best: string)
    requires BestOf(servers, usable, elected) && best in usable
    requires forall u | u in usable && u != best :: Beats(servers[best].profile, servers[u].profile)
    ensures elected == best
  {}

  /** Flags and states play no part in who is best. */
  lemma BestIsStable(a: Servers, b: Servers, usable: set<string>, id: string)
    requires BestOf(a, usable, id) && SameMembers(a, b)
    ensures id in a && BestOf(b, usable, id)
  {
    assert forall u | u in usable :: u in a;
  }

  lemma LeastIsStable(a: Servers, b: Servers, id: string)
    requires LeastUnhealthy(a, id) && SameMembers(a, b)
    ensures id in a && LeastUnhealthy(b, id)
  {
    assert forall u | u in b :: u in a;
  }

  /** One more usable server, after all the others in order of ids. */
  lemma BestGrows(servers: Servers, usable: set<string>, best: string, id: string, next: string)
    requires id in servers && (usable == {} || BestOf(servers, usable, best)) && forall u | u in usable :: Less(u, id)
    requires usable == {} || Beats(servers[id].profile, servers[best].profile) ==> next == id
    requires usable != {} && !Beats(servers[id].profile, servers[best].profile) ==> next == best
    ensures BestOf(servers, usable + {id}, next)
  {
    hide Less;
  }

  /** The servers a candidate loop accepts. */
  function Usable(servers: Servers, ids: set<string>, alive: string -> bool): set<string> {
    set id | id in ids && id in servers && (servers[id].status == "healthy" || alive(id))
  }

  /** A loop over the servers that may mark those it has passed, and flags none. */
  ghost predicate Walked(start: Servers, now: Servers, todo: set<string>) {
    && SameMembers(start, now) && todo <= now.Keys
    && (forall id | id in now :: now[id].isLeader == start[id].isLeader)
    && (forall id | id in todo :: now[id] == start[id])
  }

  ghost predicate InOrder(seen: set<string>, todo: set<string>) {
    forall id, later | id in seen && later in todo :: Less(id, later)
  }

  lemma StartWalk(start: Servers, alive: string -> bool)
    ensures Walked(start, start, start.Keys) && InOrder({}, start.Keys) && Usable(start, {}, alive) == {}
  {}

  lemma OnTheWalk(start: Servers, now: Servers, todo: set<string>, id: string)
    requires Walked(start, now, todo) && id in todo
    ensures id in start && id in now && now[id] == start[id]
  {}

  lemma StepWalk(start: Servers, before: Servers, after: Servers, todo: set<string>, id: string)
    requires Walked(start, before, todo) && id in todo && id in before
    requires after == before || after == before[id := before[id].(status := "unhealthy")]
    ensures Walked(start, after, todo - {id}) && SameMembers(before, after)
  {}

  lemma StepOrder(seen: set<string>, todo: set<string>, id: string)
    requires InOrder(seen, todo) && IsLeast(id, todo)
    ensures InOrder(seen + {id}, todo - {id}) && forall u | u in seen :: Less(u, id)
  {
    hide Less;
    FirstOfRest(todo, id);
  }

  lemma StepUsable(start: Servers, seen: set<string>, alive: string -> bool, id: string)
    requires id in start
    ensures Usable(start, seen + {id}, alive) ==
      Usable(start, seen, alive) + (if start[id].status == "healthy" || alive(id) then {id} else {})
    ensures Usable(start, seen, alive) <= seen
  {}

  lemma UsableMeans(start: Servers, alive: string -> bool, id: string)
    requires id in start
    ensures id in Usable(start, start.Keys, alive) <==> start[id].status == "healthy" || alive(id)
  {}

  lemma FirstOfRest(todo: set<string>, id: string)
    requires IsLeast(id, todo)
    ensures forall later | later in todo - {id} :: Less(id, later)
  {
    forall later | later in todo - {id} ensures Less(id, later) { assert AtMost(id, later); }
  }

  lemma BestIsUsable(servers: Servers, usable: set<string>, id: string)
    requires BestOf(servers, usable, id)
    ensures id in usable
  {}

  function KeyOf(s: Server): string { s.profile.serverId + ":" + s.profile.ip + ":" + PrintInt(s.profile.port) }

  function FailuresOf(failures: map<string, int>, s: Server): int {
    if KeyOf(s) in failures then failures[KeyOf(s)] else 0
  }

  /** What discovery leaves in the table: the last record under each name, filed under it. */
  function Refilled(children: seq<(string, Found)>): Servers {
    if children == [] then map[]
    else
      var (name, found) := children[|children| - 1];
      var before := Refilled(children[..|children| - 1]);
      if found.Record? then
        before[name := found.server.(profile := found.server.profile.(serverId := name))] else before
  }

  /** The last record under a name. */
  ghost predicate LastRecord(children: seq<(string, Found)>, name: string, i: int) {
    && 0 <= i < |children| && children[i].0 == name && children[i].1.Record?
    && forall j | i < j < |children| :: children[j].0 != name || !children[j].1.Record?
  }

  /** The table holds exactly the recorded names, each with its last record under its own id. */
  ghost predicate Tabled(children: seq<(string, Found)>, servers: Servers) {
    && (forall name | name in servers :: exists i :: LastRecord(children, name, i))
    && forall name, i | LastRecord(children, name, i) ::
         && name in servers && servers[name].profile == children[i].1.server.profile.(serverId := name)
         && servers[name].isLeader == children[i].1.server.isLeader
         && servers[name].status == children[i].1.server.status
  }

  lemma LastRecordSnoc(init: seq<(string, Found)>, last: (string, Found), name: string, i: int)
    ensures LastRecord(init + [last], name, i) <==>
      if last.0 == name && last.1.Record? then i == |init| else LastRecord(init, name, i)
  {
    var children := init + [last];
    assert children[|init|] == last;
    assert forall j | 0 <= j < |init| :: children[j] == init[j];
  }

  lemma {:induction false} RefilledIs(children: seq<(string, Found)>)
    ensures Tabled(children, Refilled(children))
  {
    if children != [] {
      var n := |children| - 1;
      var init, last := children[..n], children[n];
      assert children == init + [last];
      RefilledIs(init);
      forall name, i
        ensures LastRecord(children, name, i) <==>
          if last.0 == name && last.1.Record? then i == n else LastRecord(init, name, i)
      {
        LastRecordSnoc(init, last, name, i);
      }
      hide LastRecord;
      forall name | name in Refilled(children) ensures exists i :: LastRecord(children, name, i) {
        if last.0 == name && last.1.Record? {
          assert LastRecord(children, name, n);
        } else {
          var i :| LastRecord(init, name, i);
          assert LastRecord(children, name, i);
        }
      }
      forall name, i | LastRecord(children, name, i)
        ensures name in Refilled(children)
        ensures 0 <= i < |children| && children[i].1.Record?
        ensures Refilled(children)[name] ==
          children[i].1.server.(profile := children[i].1.server.profile.(serverId := name))
      {
        LastIsRecord(children, name, i);
        if !(last.0 == name && last.1.Record?) { LastIsRecord(init, name, i); }
      }
    }
  }

  lemma LastIsRecord(children: seq<(string, Found)>, name: string, i: int)
    requires LastRecord(children, name, i)
    ensures 0 <= i < |children| && children[i].0 == name && children[i].1.Record?
  {}

  function CheckedStatus(s: Server, recent: bool, reachable: bool): string {
    if (recent && s.status == "healthy") || reachable then "healthy" else "unhealthy"
  }

  /** One turn of the monitor loop: what discovery finds and how the checks turn out. */
  datatype Round = Round(
    children: seq<(string, Found)>, recent: string -> bool, reachable: string -> bool,
    leaderRecent: bool, leaderAlive: bool, alive: string -> bool)

  predicate Unflagged(children: seq<(string, Found)>) {
    forall i | 0 <= i < |children| :: children[i].1.Record? ==> !children[i].1.server.isLeader
  }

  predicate Readable(children: seq<(string, Found)>) { forall i | 0 <= i < |children| :: !children[i].1.Garbled? }

  datatype Outcome = Kept | Elected | Degraded | Empty

  class Monitor {
    var servers: Servers
    var leaderId: string
    var failures: map<string, int>

    ghost predicate Valid()
      reads this
    {
      OneLeader(servers, leaderId)
    }

    constructor ()
      ensures Valid() && servers == map[] && leaderId == ""
    {
      servers, leaderId, failures := map[], "", map[];
    }

    /** Refill the table; a record that does not parse ends the pass early. */
    method Discover(children: seq<(string, Found)>) returns (threw: bool)
      requires Unflagged(children)
      modifies this`servers
      ensures Valid() && forall id | id in servers :: !servers[id].isLeader
      ensures threw <==> !Readable(children)
      ensures !threw ==> servers == Refilled(children) && Tabled(children, servers)
    {
      servers := map[];
      for i := 0 to |children|
        invariant forall id | id in servers :: servers[id].profile.serverId == id && !servers[id].isLeader
        invariant servers == Refilled(children[..i]) && Readable(children[..i])
      {
        assert children[..i + 1][..i] == children[..i];
        var (name, found) := children[i];
        if found.Garbled? { return true; }
        if found.Record? {
          servers := servers[name := found.server.(profile := found.server.profile.(serverId := name))];
        }
      }
      threw := false;
      assert children[..|children|] == children;
      RefilledIs(children);
    }

    /** One health check: a recent good one counts, otherwise it is a connection attempt,
        and the third failure in a row marks the server. */
    method Check(id: string, recent: bool, reachable: bool) returns (healthy: bool)
      requires id in servers
      modifies this`servers, this`failures
      ensures healthy <==> (recent && old(servers)[id].status == "healthy") || reachable
      ensures recent && old(servers)[id].status == "healthy" ==> failures == old(failures)
      ensures !(recent && old(servers)[id].status == "healthy") ==>
        failures == old(failures)[KeyOf(old(servers)[id]) :=
          if reachable then 0 else FailuresOf(old(failures), old(servers)[id]) + 1]
      ensures servers ==
        if !healthy && FailuresOf(old(failures), old(servers)[id]) + 1 >= 3
        then old(servers)[id := old(servers)[id].(status := "unhealthy")] else old(servers)
    {
      var s := servers[id];
      if recent && s.status == "healthy" { return true; }
      var key := KeyOf(s);
      if reachable {
        failures := failures[key := 0];
        return true;
      }
      var count := FailuresOf(failures, s) + 1;
      failures := failures[key := count];
      if count >= 3 { servers := servers[id := s.(status := "unhealthy")]; }
      healthy := false;
    }

    /** One step of the monitor's own pass. */
    method CheckAndMark(id: string, recent: bool, reachable: bool)
      requires id in servers
      modifies this`servers, this`failures
      ensures servers == old(servers)[id :=
        old(servers)[id].(status := CheckedStatus(old(servers)[id], recent, reachable))]
    {
      var healthy := Check(id, recent, reachable);
      servers := servers[id := servers[id].(status := if healthy then "healthy" else "unhealthy")];
    }

    /** The monitor's own pass over all servers before an election. */
    method CheckAll(recent: string -> bool, reachable: string -> bool)
      requires Valid()
      modifies this`servers, this`failures
      ensures Valid() && servers.Keys == old(servers).Keys
      ensures forall id | id in servers :: servers[id] ==
                old(servers)[id].(status := CheckedStatus(old(servers)[id], recent(id), reachable(id)))
    {
      hide CheckedStatus;
      var todo := servers.Keys;
      while todo != {}
        invariant todo <= servers.Keys == old(servers).Keys
        invariant forall id | id in todo :: servers[id] == old(servers)[id]
        invariant forall id | id in servers.Keys - todo :: servers[id] ==
                    old(servers)[id].(status := CheckedStatus(old(servers)[id], recent(id), reachable(id)))
        decreases |todo|
      {
        var id := Least(todo);
        CheckAndMark(id, recent(id), reachable(id));
        todo := todo - {id};
      }
    }

    /** The flagged server, if there is one: the first in order of ids. */
    method FindLeader() returns (current: string, found: bool)
      requires Valid()
      ensures found ==> current in servers && servers[current].isLeader && current == leaderId
      ensures !found ==> forall id | id in servers :: !servers[id].isLeader
    {
      var todo := servers.Keys;
      current, found := "", false;
      while todo != {}
        invariant todo <= servers.Keys && forall id | id in servers.Keys - todo :: !servers[id].isLeader
        decreases |todo|
      {
        var id := Least(todo);
        if servers[id].isLeader { return id, true; }
        todo := todo - {id};
      }
    }

    method BestCandidate(alive: string -> bool) returns (best: string, usable: set<string>)
      requires Valid()
      modifies this`servers, this`failures
      ensures Walked(old(servers), servers, {})
      ensures usable == Usable(old(servers), old(servers).Keys, alive)
      ensures usable != {} ==> BestOf(servers, usable, best)
    {
      hide Less, BestOf, Usable, Walked, InOrder, KeyOf, FailuresOf;
      ghost var start, seen := servers, {};
      var todo := servers.Keys;
      best, usable := "", {};
      StartWalk(start, alive);
      while todo != {}
        invariant Walked(start, servers, todo) && InOrder(seen, todo) && seen + todo == start.Keys
        invariant usable == Usable(start, seen, alive)
        invariant usable != {} ==> best in servers && BestOf(servers, usable, best)
        decreases |todo|
      {
        var id := Least(todo);
        ghost var before := servers;
        OnTheWalk(start, before, todo, id);
        var ok := servers[id].status == "healthy";
        if !ok { ok := Check(id, false, alive(id)); }
        StepWalk(start, before, servers, todo, id);
        StepOrder(seen, todo, id);
        StepUsable(start, seen, alive, id);
        if usable != {} { BestIsStable(before, servers, usable, best); }
        if ok {
          ghost var previous := best;
          if usable == {} || Beats(servers[id].profile, servers[best].profile) {
            best := id;
          } else if SameLoad(servers[id].profile, servers[best].profile) && Less(id, best) {
            BestIsUsable(servers, usable, best);
            LessIsStrict(best, id);
            best := id;
          }
          BestGrows(servers, usable, previous, id, best);
          usable := usable + {id};
        }
        seen := seen + {id};
        todo := todo - {id};
      }
      assert seen == start.Keys;
    }

    method LeastUnhealthyServer() returns (least: string)
      requires servers != map[]
      ensures LeastUnhealthy(servers, least)
    {
      hide Less;
      var todo := servers.Keys;
      var found := false;
      least := "";
      while todo != {}
        invariant todo <= servers.Keys && (!found ==> todo == servers.Keys)
        invariant forall id, later | id in servers.Keys - todo && later in todo :: Less(id, later)
        invariant found ==> least in servers.Keys - todo && forall u | u in servers.Keys - todo ::
          && servers[least].profile.consecutiveFailures <= servers[u].profile.consecutiveFailures
          && (servers[least].profile.consecutiveFailures == servers[u].profile.consecutiveFailures ==> AtMost(least, u))
        decreases |todo|
      {
        var id := Least(todo);
        FirstOfRest(todo, id);
        if !found || servers[id].profile.consecutiveFailures < servers[least].profile.consecutiveFailures {
          least, found := id, true;
        }
        todo := todo - {id};
      }
    }

    method Promote(id: string, status: string)
      requires id in servers && OneLeader(servers, id) && forall u | u in servers :: !servers[u].isLeader
      modifies this`servers, this`leaderId
      ensures servers == old(servers)[id := old(servers)[id].(isLeader := true, status := status)] && leaderId == id
      ensures Valid() && SameMembers(old(servers), servers)
    {
      servers := servers[id := servers[id].(isLeader := true, status := status)];
      leaderId := servers[id].profile.serverId;
    }

    /** The first part of an election: a leader that fails its check is demoted. */
    method KeepOrDemote(recent: bool, leaderAlive: bool) returns (kept: bool)
      requires Valid()
      modifies this`servers, this`failures
      ensures kept <==> old(leaderId in servers && servers[leaderId].isLeader &&
                CheckedStatus(servers[leaderId], recent, leaderAlive) == "healthy")
      ensures kept ==> servers == old(servers)
      ensures !kept ==> SameMembers(old(servers), servers) && forall id | id in servers ::
        && !servers[id].isLeader
        && (servers[id].status == "healthy" <==> old(servers)[id].status == "healthy" && !old(servers)[id].isLeader)
    {
      hide KeyOf, FailuresOf;
      var current, found := FindLeader();
      if found {
        var healthy := Check(current, recent, leaderAlive);
        if healthy { return true; }
        servers := servers[current := servers[current].(isLeader := false, status := "unhealthy")];
      }
      kept := false;
    }

    /** An election. `recent` and `leaderAlive` are the current leader's check, `alive` the
        answers of the candidates that are not already marked healthy. */
    method Elect(recent: bool, leaderAlive: bool, alive: string -> bool) returns (outcome: Outcome, usable: set<string>)
      requires Valid()
      modifies this
      ensures Valid() && SameMembers(old(servers), servers)
      ensures servers != map[] ==> leaderId in servers && servers[leaderId].isLeader
      ensures outcome.Kept? ==> servers == old(servers) && leaderId == old(leaderId)
      ensures outcome.Kept? <==> old(leaderId in servers && servers[leaderId].isLeader &&
                CheckedStatus(servers[leaderId], recent, leaderAlive) == "healthy")
      ensures outcome.Elected? ==> BestOf(servers, usable, leaderId) && servers[leaderId].status == "healthy"
      ensures outcome.Elected? || outcome.Degraded? ==>
        forall id | id in servers :: id in usable <==>
          alive(id) || (old(servers)[id].status == "healthy" && !old(servers)[id].isLeader)
      ensures outcome.Degraded? ==> LeastUnhealthy(servers, leaderId) && servers[leaderId].status == "degraded"
      ensures outcome.Degraded? ==> usable == {}
      ensures outcome.Empty? <==> old(servers) == map[]
    {
      hide BestOf, LeastUnhealthy, Less, Usable, CheckedStatus;
      usable := {};
      var kept := KeepOrDemote(recent, leaderAlive);
      if kept { return Kept, {}; }
      ghost var start := servers;
      var best;
      best, usable := BestCandidate(alive);
      forall id | id in servers
        ensures id in usable <==> alive(id) || (old(servers)[id].status == "healthy" && !old(servers)[id].isLeader)
      {
        UsableMeans(start, alive, id);
      }
      ghost var before := servers;
      if usable != {} {
        BestIsStable(before, servers, usable, best);
        Promote(best, "healthy");
        BestIsStable(before, servers, usable, best);
        outcome := Elected;
      } else if servers != map[] {
        var least := LeastUnhealthyServer();
        LeastIsStable(before, servers, least);
        Promote(least, "degraded");
        LeastIsStable(before, servers, least);
        outcome := Degraded;
      } else {
        outcome := Empty;
      }
    }

    /** The monitor loop: after any number of rounds at most one server is flagged and it is
        the recorded leader, and a last round that saw servers has left exactly one. */
    method Loop(rounds: seq<Round>)
      requires Valid() && forall k | 0 <= k < |rounds| :: Unflagged(rounds[k].children)
      modifies this
      ensures Valid()
      ensures rounds != [] && Readable(rounds[|rounds| - 1].children) && servers != map[] ==>
        leaderId in servers && forall id | id in servers :: servers[id].isLeader <==> id == leaderId
      ensures rounds != [] && Readable(rounds[|rounds| - 1].children) ==>
        SameMembers(Refilled(rounds[|rounds| - 1].children), servers)
    {
      for k := 0 to |rounds|
        invariant Valid()
        invariant k > 0 && Readable(rounds[k - 1].children) && servers != map[] ==>
          leaderId in servers && servers[leaderId].isLeader
        invariant k > 0 && Readable(rounds[k - 1].children) ==> SameMembers(Refilled(rounds[k - 1].children), servers)
      {
        hide Refilled, Tabled, CheckedStatus, BestOf, LeastUnhealthy;
        var r := rounds[k];
        assert Unflagged(r.children);
        var threw := Discover(r.children);
        if !threw {
          CheckAll(r.recent, r.reachable);
          var outcome, usable := Elect(r.leaderRecent, r.leaderAlive, r.alive);
        }
      }
    }
  }
}
