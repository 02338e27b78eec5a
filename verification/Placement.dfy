/** The registry of cluster servers and the choice of servers for a chunk's replicas. */
module Placement {

  import opened Basics
  import opened Text
  import opened Cluster

  datatype Entry = Entry(id: int, host: string, port: int, transferPort: int, publicPort: int, status: string)

  function Address(e: Entry): string { e.host + ":" + PrintInt(e.port) }

  /** Host and port can be read off an address, whatever the host contains. */
  lemma AddressInjective(a: Entry, b: Entry)
    requires Address(a) == Address(b)
    ensures a.host == b.host && a.port == b.port
  {
    PrintIntIsToken(a.port);
    PrintIntIsToken(b.port);
    assert forall i | 0 <= i < |PrintInt(a.port)| :: IsNumeral(PrintInt(a.port)[i]);
    assert forall i | 0 <= i < |PrintInt(b.port)| :: IsNumeral(PrintInt(b.port)[i]);
    LastField(':', a.host, PrintInt(a.port), b.host, PrintInt(b.port));
    PrintIntInjective(a.port, b.port);
  }

  lemma {:induction false} SpanInside(host: string, rest: string)
    requires !All(NotColon, host)
    ensures Span(NotColon, host + rest) < |host|
  {
    if NotColon(host[0]) {
      SpanInside(host[1..], rest);
      assert (host + rest)[1..] == host[1..] + rest;
    }
  }

  /** The host that clients are told is the registered one exactly when it has no colon. */
  lemma HostOfAddress(e: Entry)
    ensures HostOf(Address(e)) == e.host <==> All(NotColon, e.host)
  {
    hide PrintInt;
    if All(NotColon, e.host) {
      HostIs(e.host, e.port);
    } else {
      SpanInside(e.host, ":" + PrintInt(e.port));
      assert e.host + (":" + PrintInt(e.port)) == Address(e);
    }
  }

  type Entries = map<int, Entry>

  predicate SameEndpoint(a: Entry, b: Entry) { a.host == b.host && a.port == b.port }

  /** No two registered servers share host and port. */
  ghost predicate Distinct(servers: Entries) {
    && (forall i | i in servers :: servers[i].id == i)
    && (forall i, j | i in servers && j in servers && SameEndpoint(servers[i], servers[j]) :: i == j)
  }

  ghost predicate NoRepeats(s: seq<string>) { forall i, j | 0 <= i < j < |s| :: s[i] != s[j] }

  /** All ids are below the counter, so the next one is new. */
  ghost predicate Fresh(servers: Entries, nextId: int) { forall i | i in servers :: i < nextId }

  class Registry {
    var servers: Entries
    var nextId: int

    ghost predicate Valid()
      reads this
    {
      Distinct(servers)
    }

    constructor ()
      ensures Valid() && servers == map[] && Fresh(servers, nextId)
    {
      servers, nextId := map[], 1;
    }

    /** Adding an endpoint that is known changes nothing; a new one takes the next id, and
        the entry that had that id, if the counter was moved back. */
    method AddServer(host: string, port: int, transferPort: int, publicPort: int) returns (id: int)
      requires Valid()
      modifies this
      ensures Valid() && id in servers && servers[id].host == host && servers[id].port == port
      ensures (exists i | i in old(servers) :: old(servers)[i].host == host && old(servers)[i].port == port) ==>
        servers == old(servers) && nextId == old(nextId)
      ensures (forall i | i in old(servers) :: old(servers)[i].host != host || old(servers)[i].port != port) ==>
        && id == old(nextId) && nextId == old(nextId) + 1
        && servers == old(servers)[id := Entry(id, host, port, transferPort, publicPort, "active")]
      ensures Fresh(old(servers), old(nextId)) ==>
        Fresh(servers, nextId) && forall i | i in old(servers) :: i in servers && servers[i] == old(servers)[i]
    {
      var todo := servers.Keys;
      while todo != {}
        invariant servers == old(servers) && nextId == old(nextId) && todo <= servers.Keys
        invariant forall i | i in servers.Keys - todo :: servers[i].host != host || servers[i].port != port
        decreases |todo|
      {
        id := Smallest(todo);
        if servers[id].host == host && servers[id].port == port { return; }
        todo := todo - {id};
      }
      id := nextId;
      nextId := nextId + 1;
      servers := servers[id := Entry(id, host, port, transferPort, publicPort, "active")];
    }

    method RemoveServer(id: int) returns (ok: bool)
      requires Valid()
      modifies this`servers
      ensures Valid() && ok == (id in old(servers)) && servers == old(servers) - {id}
      ensures Fresh(old(servers), nextId) ==> Fresh(servers, nextId)
    {
      if id !in servers { return false; }
      servers := servers - {id};
      ok := true;
    }

    /** The counter can be moved anywhere, also back to ids in use. */
    method SetNextId(id: int)
      requires Valid()
      modifies this`nextId
      ensures Valid() && nextId == id
    {
      nextId := id;
    }

    /** The addresses of the active servers in order of their ids, without repetition. */
    method GetAddresses() returns (addresses: seq<string>, ghost ids: seq<int>)
      requires Valid()
      ensures NoRepeats(addresses) && forall a :: a in addresses <==> Listed(servers, servers.Keys, a)
      ensures ById(servers, servers.Keys, ids, addresses)
    {
      hide Address, Listed, Distinct, ById;
      addresses, ids := [], [];
      NothingById(servers);
      var todo := servers.Keys;
      ghost var seen: set<int> := {};
      NoneListed(servers);
      while todo != {}
        invariant seen + todo == servers.Keys && seen !! todo && NoRepeats(addresses)
        invariant forall a :: a in addresses <==> Listed(servers, seen, a)
        invariant ById(servers, seen, ids, addresses) && forall i, j | i in seen && j in todo :: i < j
        decreases |todo|
      {
        var id := Smallest(todo);
        OneMoreById(servers, seen, ids, addresses, id);
        forall a ensures Listed(servers, seen + {id}, a) <==> Listed(servers, seen, a) || IsActive(servers[id], a) {
          OneMoreListed(servers, seen, id, a);
        }
        if servers[id].status == "active" {
          NotListedTwice(servers, seen, id);
          addresses, ids := addresses + [Address(servers[id])], ids + [id];
        }
        seen, todo := seen + {id}, todo - {id};
      }
      assert seen == servers.Keys;
    }
  }

  /** The active servers among these by ascending id, and their addresses. */
  ghost predicate ById(servers: Entries, among: set<int>, ids: seq<int>, addresses: seq<string>) {
    && |ids| == |addresses| && (forall i, j | 0 <= i < j < |ids| :: ids[i] < ids[j])
    && (forall k | 0 <= k < |ids| :: ids[k] in among && ids[k] in servers && IsActive(servers[ids[k]], addresses[k]))
    && forall i | i in among && i in servers && servers[i].status == "active" :: i in ids
  }

  lemma NothingById(servers: Entries)
    ensures ById(servers, {}, [], [])
  {}

  lemma OneMoreById(servers: Entries, seen: set<int>, ids: seq<int>, addresses: seq<string>, id: int)
    requires ById(servers, seen, ids, addresses) && id in servers && forall i | i in seen :: i < id
    ensures if servers[id].status == "active"
      then ById(servers, seen + {id}, ids + [id], addresses + [Address(servers[id])])
      else ById(servers, seen + {id}, ids, addresses)
  {
    hide Address;
  }

  predicate IsActive(e: Entry, a: string) { e.status == "active" && a == Address(e) }

  /** Some server among these is active at that address. */
  predicate Listed(servers: Entries, ids: set<int>, a: string) {
    exists i | i in ids && i in servers :: IsActive(servers[i], a)
  }

  lemma NoneListed(servers: Entries)
    ensures forall a :: !Listed(servers, {}, a)
  {}

  lemma OneMoreListed(servers: Entries, seen: set<int>, id: int, a: string)
    requires id in servers
    ensures Listed(servers, seen + {id}, a) <==> Listed(servers, seen, a) || IsActive(servers[id], a)
  {
    hide IsActive;
    if IsActive(servers[id], a) { assert id in seen + {id}; }
    if Listed(servers, seen, a) {
      var i :| i in seen && i in servers && IsActive(servers[i], a);
      assert i in seen + {id};
    }
  }

  lemma NotListedTwice(servers: Entries, seen: set<int>, id: int)
    requires Distinct(servers) && id in servers && id !in seen
    ensures !Listed(servers, seen, Address(servers[id]))
  {
    hide Address;
    if Listed(servers, seen, Address(servers[id])) {
      var i :| i in seen && i in servers && IsActive(servers[i], Address(servers[id]));
      AddressInjective(servers[i], servers[id]);
    }
  }

  // ---- choosing servers

  /** The report at index `i` is the first, or the last, about that server. */
  predicate FirstReport(health: seq<Health>, address: string, i: int) {
    0 <= i < |health| && Matches(health[i], address) && forall j | 0 <= j < i :: !Matches(health[j], address)
  }

  predicate LastReport(health: seq<Health>, address: string, i: int) {
    0 <= i < |health| && Matches(health[i], address) && forall j | i < j < |health| :: !Matches(health[j], address)
  }

  predicate Unreported(health: seq<Health>, address: string) {
    forall i | 0 <= i < |health| :: !Matches(health[i], address)
  }

  /** The first record that matches a server decides whether it is taken for healthy; a
      server without a record is. */
  predicate IsCandidate(health: seq<Health>, address: string) {
    if health == [] then true
    else if Matches(health[0], address) then health[0].isHealthy
    else IsCandidate(health[1..], address)
  }

  /** The last record that matches decides its disk usage; without one it counts as full. */
  function DiskUsage(health: seq<Health>, address: string): real {
    if health == [] then 100.0
    else
      var n := |health| - 1;
      if Matches(health[n], address) then health[n].diskUsage else DiskUsage(health[..n], address)
  }

  lemma {:induction false} CandidateIs(health: seq<Health>, address: string)
    ensures forall i | FirstReport(health, address, i) :: IsCandidate(health, address) == health[i].isHealthy
    ensures Unreported(health, address) ==> IsCandidate(health, address)
    decreases |health|
  {
    hide Matches;
    if health != [] {
      var rest := health[1..];
      CandidateIs(rest, address);
      assert forall j | 0 < j < |health| :: health[j] == rest[j - 1];
      assert forall i | 0 < i && FirstReport(health, address, i) :: FirstReport(rest, address, i - 1);
    }
  }

  lemma {:induction false} DiskIs(health: seq<Health>, address: string, i: int)
    requires LastReport(health, address, i) || (i == -1 && Unreported(health, address))
    ensures DiskUsage(health, address) == if i == -1 then 100.0 else health[i].diskUsage
    decreases |health|
  {
    hide Matches;
    if health != [] {
      var n := |health| - 1;
      if i < n { DiskIs(health[..n], address, i); }
    }
  }

  method CheckCandidate(health: seq<Health>, address: string) returns (ok: bool)
    ensures ok == IsCandidate(health, address)
    ensures forall i | FirstReport(health, address, i) :: ok == health[i].isHealthy
    ensures Unreported(health, address) ==> ok
  {
    CandidateIs(health, address);
    hide Matches, FirstReport, Unreported;
    for i := 0 to |health|
      invariant IsCandidate(health, address) == IsCandidate(health[i..], address)
    {
      assert health[i..][1..] == health[i + 1..];
      if Matches(health[i], address) { return health[i].isHealthy; }
    }
    ok := true;
  }

  method LookUpDisk(health: seq<Health>, address: string) returns (disk: real)
    ensures disk == DiskUsage(health, address)
    ensures forall i | LastReport(health, address, i) :: disk == health[i].diskUsage
    ensures Unreported(health, address) ==> disk == 100.0
  {
    forall i | LastReport(health, address, i) ensures DiskUsage(health, address) == health[i].diskUsage {
      DiskIs(health, address, i);
    }
    if Unreported(health, address) { DiskIs(health, address, -1); }
    hide Matches, LastReport, Unreported;
    disk := 100.0;
    for i := 0 to |health|
      invariant disk == DiskUsage(health[..i], address)
    {
      assert health[..i + 1][..i] == health[..i];
      if Matches(health[i], address) { disk := health[i].diskUsage; }
    }
    assert health[..|health|] == health;
  }

  method FilterCandidates(servers: seq<string>, health: seq<Health>) returns (healthy: seq<string>)
    ensures forall a :: a in healthy <==> a in servers && IsCandidate(health, a)
    ensures NoRepeats(servers) ==> NoRepeats(healthy)
  {
    hide IsCandidate, FirstReport, Unreported;
    healthy := [];
    for i := 0 to |servers|
      invariant forall a :: a in healthy <==> a in servers[..i] && IsCandidate(health, a)
      invariant NoRepeats(servers) ==> NoRepeats(healthy)
    {
      assert servers[..i + 1] == servers[..i] + [servers[i]];
      var ok := CheckCandidate(health, servers[i]);
      if ok { healthy := healthy + [servers[i]]; }
    }
    assert servers[..|servers|] == servers;
  }

  ghost predicate Sorted(s: seq<string>, health: seq<Health>) {
    forall i, j | 0 <= i < j < |s| :: DiskUsage(health, s[i]) <= DiskUsage(health, s[j])
  }

  method LeastFull(s: seq<string>, health: seq<Health>) returns (k: nat)
    requires s != []
    ensures k < |s| && forall i | 0 <= i < |s| :: DiskUsage(health, s[k]) <= DiskUsage(health, s[i])
  {
    hide DiskUsage, LastReport, Unreported;
    k := 0;
    var least := LookUpDisk(health, s[0]);
    for i := 1 to |s|
      invariant k < i && least == DiskUsage(health, s[k])
      invariant forall j | 0 <= j < i :: least <= DiskUsage(health, s[j])
    {
      var disk := LookUpDisk(health, s[i]);
      if disk < least { k, least := i, disk; }
    }
  }

  ghost predicate AllBelow(r: seq<string>, rest: seq<string>, health: seq<Health>) {
    forall a, b | a in r && b in rest :: DiskUsage(health, a) <= DiskUsage(health, b)
  }

  lemma {:induction false} TakeNext(r: seq<string>, rest: seq<string>, k: nat, health: seq<Health>)
    requires Sorted(r, health) && AllBelow(r, rest, health)
    requires k < |rest| && forall i | 0 <= i < |rest| :: DiskUsage(health, rest[k]) <= DiskUsage(health, rest[i])
    ensures Sorted(r + [rest[k]], health) && AllBelow(r + [rest[k]], rest[..k] + rest[k + 1..], health)
    ensures multiset(rest[..k] + rest[k + 1..]) + multiset{rest[k]} == multiset(rest)
  {
    hide DiskUsage;
    assert rest == rest[..k] + [rest[k]] + rest[k + 1..];
    assert forall i | 0 <= i < |r| :: r[i] in r;
  }

  /** Any order by disk usage that keeps the servers; ties may come out either way. */
  method SortByDisk(servers: seq<string>, health: seq<Health>) returns (r: seq<string>)
    ensures Sorted(r, health) && multiset(r) == multiset(servers)
  {
    hide DiskUsage, Sorted, AllBelow;
    r := [];
    var rest := servers;
    NothingToSort(servers, health);
    while rest != []
      invariant Sorted(r, health) && AllBelow(r, rest, health) && multiset(r) + multiset(rest) == multiset(servers)
      decreases |rest|
    {
      var k := LeastFull(rest, health);
      TakeNext(r, rest, k, health);
      r, rest := r + [rest[k]], rest[..k] + rest[k + 1..];
    }
  }

  lemma NothingToSort(servers: seq<string>, health: seq<Health>)
    ensures Sorted([], health) && AllBelow([], servers, health)
  {}

  /** Without repetition means every element once. */
  lemma {:induction false} OnceEach(s: seq<string>)
    ensures NoRepeats(s) <==> forall a :: multiset(s)[a] <= 1
    decreases |s|
  {
    if s != [] {
      var n := |s| - 1;
      var t, last := s[..n], s[n];
      OnceEach(t);
      assert s == t + [last];
      assert forall a :: multiset(s)[a] == multiset(t)[a] + (if a == last then 1 else 0);
      assert last in t <==> multiset(t)[last] >= 1;
      RepeatsAtEnd(t, last);
    }
  }

  lemma RepeatsAtEnd(t: seq<string>, last: string)
    ensures NoRepeats(t + [last]) <==> NoRepeats(t) && last !in t
  {
    var s := t + [last];
    assert forall i | 0 <= i < |t| :: s[i] == t[i];
    assert s[|t|] == last;
  }

  function Usable(servers: seq<string>, health: seq<Health>): set<string> {
    set a | a in servers && IsCandidate(health, a)
  }

  /** The servers a chunk may go to: the healthy and unknown ones, or all when there is none. */
  function Candidates(servers: seq<string>, health: seq<Health>): set<string> {
    if Usable(servers, health) != {} then Usable(servers, health) else set a | a in servers
  }

  lemma CandidatesAre(servers: seq<string>, health: seq<Health>, healthy: seq<string>, chosen: seq<string>)
    requires forall a :: a in healthy <==> a in servers && IsCandidate(health, a)
    requires chosen == if healthy != [] then healthy else servers
    ensures Candidates(servers, health) == set a | a in chosen
  {
    hide IsCandidate;
    if healthy != [] { assert healthy[0] in Usable(servers, health); }
    assert Usable(servers, health) == set a | a in healthy;
  }

  lemma SameElements(a: seq<string>, b: seq<string>)
    requires multiset(a) == multiset(b)
    ensures (set x | x in a) == (set x | x in b)
  {
    assert forall x :: x in a <==> x in multiset(a);
    assert forall x :: x in b <==> x in multiset(b);
  }

  lemma {:induction false} DistinctCount(s: seq<string>)
    requires NoRepeats(s)
    ensures |set x | x in s| == |s|
    decreases |s|
  {
    if s != [] {
      var n := |s| - 1;
      DistinctCount(s[..n]);
      assert s == s[..n] + [s[n]];
      assert (set x | x in s) == (set x | x in s[..n]) + {s[n]};
      assert s[n] !in s[..n];
    }
  }

  lemma FirstsAreLeast(order: seq<string>, n: nat, health: seq<Health>)
    requires Sorted(order, health) && n <= |order|
    ensures forall a, b | a in order[..n] && b in order && b !in order[..n] ::
      DiskUsage(health, a) <= DiskUsage(health, b)
  {
    hide DiskUsage;
    forall a, b | a in order[..n] && b in order && b !in order[..n]
      ensures DiskUsage(health, a) <= DiskUsage(health, b)
    {
      var i :| 0 <= i < n && order[i] == a;
      var j :| 0 <= j < |order| && order[j] == b;
      assert order[..n][i] == a;
      assert forall k | 0 <= k < n :: order[k] == order[..n][k];
    }
  }

  /** Choosing servers for a chunk: as many different candidates as asked for and as there
      are, and none passed over for a fuller one. */
  method SelectServers(servers: seq<string>, health: seq<Health>, factor: int) returns (selected: seq<string>)
    ensures forall a | a in selected :: a in Candidates(servers, health)
    ensures forall a, b | a in selected && b in Candidates(servers, health) && b !in selected ::
      DiskUsage(health, a) <= DiskUsage(health, b)
    ensures Sorted(selected, health)
    ensures NoRepeats(servers) ==>
      NoRepeats(selected) && |selected| == Min(|Candidates(servers, health)|, if factor < 0 then 0 else factor)
  {
    hide IsCandidate, DiskUsage, Sorted;
    var healthy := FilterCandidates(servers, health);
    var candidates := if healthy != [] then healthy else servers;
    CandidatesAre(servers, health, healthy, candidates);
    var order := SortByDisk(candidates, health);
    OnceEach(candidates);
    OnceEach(order);
    SameElements(order, candidates);
    if NoRepeats(servers) { DistinctCount(order); }
    selected := Firsts(order, factor);
    FirstsAreLeast(order, |selected|, health);
    assert forall i | 0 <= i < |selected| :: selected[i] == order[i];
    FirstsAreSorted(order, selected, health);
  }

  lemma FirstsAreSorted(order: seq<string>, firsts: seq<string>, health: seq<Health>)
    requires Sorted(order, health) && firsts <= order
    ensures Sorted(firsts, health)
  {
    hide DiskUsage;
    assert forall i | 0 <= i < |firsts| :: firsts[i] == order[i];
  }

  method Firsts(servers: seq<string>, factor: int) returns (selected: seq<string>)
    ensures |selected| == Min(|servers|, if factor < 0 then 0 else factor) && selected <= servers
  {
    var count := Min(factor, |servers|);
    selected := [];
    for i := 0 to if count < 0 then 0 else count
      invariant selected == servers[..i]
    {
      selected := selected + [servers[i]];
    }
  }

  /** What a selection from a list of servers is, with and without health reports. */
  ghost predicate IsSelection(servers: seq<string>, health: Option<seq<Health>>, factor: int, selected: seq<string>) {
    var wanted := if factor < 0 then 0 else factor;
    match health
    case None => selected <= servers && |selected| == Min(|servers|, wanted)
    case Some(reports) =>
      && Sorted(selected, reports) && (forall a | a in selected :: a in Candidates(servers, reports))
      && (forall a, b | a in selected && b in Candidates(servers, reports) && b !in selected ::
            DiskUsage(reports, a) <= DiskUsage(reports, b))
      && (NoRepeats(servers) ==> NoRepeats(selected) && |selected| == Min(|Candidates(servers, reports)|, wanted))
  }

  /** From servers listed once each, nobody is selected twice, and nobody from elsewhere. */
  lemma SelectionIsDistinct(servers: seq<string>, health: Option<seq<Health>>, factor: int, selected: seq<string>)
    requires NoRepeats(servers) && IsSelection(servers, health, factor, selected)
    ensures NoRepeats(selected) && forall a | a in selected :: a in servers
  {
    if health.None? { assert forall i | 0 <= i < |selected| :: selected[i] == servers[i]; }
  }

  /** The whole choice: the registry's addresses, or the configured ones when it has none,
      and the health reports when there is a monitor. */
  method SelectForChunk(registry: Registry, configured: seq<string>, health: Option<seq<Health>>, factor: int)
    returns (selected: seq<string>, servers: seq<string>)
    requires registry.Valid()
    ensures if exists a :: Listed(registry.servers, registry.servers.Keys, a)
      then
        && NoRepeats(servers) && (forall a :: a in servers <==> Listed(registry.servers, registry.servers.Keys, a))
        && exists ids :: ById(registry.servers, registry.servers.Keys, ids, servers)
      else servers == configured
    ensures IsSelection(servers, health, factor, selected)
  {
    hide Listed, DiskUsage, Candidates, Distinct, ById;
    ghost var ids;
    servers, ids := registry.GetAddresses();
    assert servers != [] ==> servers[0] in servers;
    if servers == [] { servers := configured; }
    if health.Some? {
      selected := SelectServers(servers, health.value, factor);
    } else {
      selected := Firsts(servers, factor);
    }
  }
}
