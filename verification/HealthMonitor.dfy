/** The health monitor: heartbeats, stale checks, and the callbacks between them. */
module HealthMonitor {

  import opened Basics

  datatype Health = Health(ip: string, isHealthy: bool, lastHeartbeat: int, missed: int)

  /** Clock readings are nanoseconds; zero is the default time point, which stands for a
      record that has never been heard of. */
  const SECOND := 1_000_000_000

  /** Whole seconds between two readings, rounded toward zero as a duration cast does. */
  function Seconds(ns: int): int { if ns >= 0 then ns / SECOND else -((-ns) / SECOND) }

  predicate Stale(timeout: int, last: int, now: int) { last != 0 && Seconds(now - last) > timeout }

  // ---- the reference: what a server's history says

  datatype Event = Beat(t: int) | Check(t: int)

  /** A registration of a server: when it began, and what happened to it since. */
  datatype Life = Life(born: int, events: seq<Event>)

  datatype Callback = Unhealthy | Recovered

  function Before(life: Life): Life
    requires life.events != []
  {
    life.(events := life.events[..|life.events| - 1])
  }

  function Last(life: Life): Event
    requires life.events != []
  {
    life.events[|life.events| - 1]
  }

  function LastBeat(life: Life): int
    decreases |life.events|
  {
    if life.events == [] then life.born
    else if Last(life).Beat? then Last(life).t else LastBeat(Before(life))
  }

  /** Stale checks since the last heartbeat. */
  function Misses(timeout: int, life: Life): nat
    decreases |life.events|
  {
    if life.events == [] || Last(life).Beat? then 0
    else Misses(timeout, Before(life)) + if Stale(timeout, LastBeat(Before(life)), Last(life).t) then 1 else 0
  }

  /** A threshold below one acts like one. */
  function Limit(maxMissed: int): int { if maxMissed < 1 then 1 else maxMissed }

  predicate Down(timeout: int, maxMissed: int, life: Life) { Misses(timeout, life) >= Limit(maxMissed) }

  /** The callback that the latest event decides: unhealthy at exactly the limit-th stale
      check since the last heartbeat, recovered at the first heartbeat after that. */
  function Due(timeout: int, maxMissed: int, life: Life): seq<Callback>
    requires life.events != []
  {
    if Last(life).Beat? && Down(timeout, maxMissed, Before(life)) then [Recovered]
    else if Misses(timeout, life) == Limit(maxMissed) &&
      Misses(timeout, Before(life)) < Limit(maxMissed) then [Unhealthy]
    else []
  }

  function Callbacks(timeout: int, maxMissed: int, life: Life): seq<Callback>
    decreases |life.events|
  {
    if life.events == [] then [] else Callbacks(timeout, maxMissed, Before(life)) + Due(timeout, maxMissed, life)
  }

  predicate Alternating(s: seq<Callback>) {
    forall i | 0 <= i < |s| :: s[i] == if i % 2 == 0 then Unhealthy else Recovered
  }

  /** Within a registration the decisions to call back alternate, starting with unhealthy, and
      the last one says whether the server is down. */
  lemma {:induction false} DecisionsAlternate(timeout: int, maxMissed: int, life: Life)
    ensures var decided := Callbacks(timeout, maxMissed, life);
      Alternating(decided) && (|decided| % 2 == 1 <==> Down(timeout, maxMissed, life))
    decreases |life.events|
  {
    if life.events != [] { DecisionsAlternate(timeout, maxMissed, Before(life)); }
  }

  /** The record that a history leads to. */
  ghost predicate Agrees(timeout: int, maxMissed: int, life: Life, h: Health) {
    && h.lastHeartbeat == LastBeat(life) && h.missed == Misses(timeout, life)
    && h.isHealthy == !Down(timeout, maxMissed, life)
  }

  function Then(life: Life, e: Event): Life { Life(life.born, life.events + [e]) }

  /** How a heartbeat extends what a history says. */
  lemma AfterBeat(timeout: int, maxMissed: int, life: Life, now: int)
    ensures var next := Then(life, Beat(now));
      && LastBeat(next) == now && Misses(timeout, next) == 0 && next.events != []
      && Due(timeout, maxMissed, next) == (if Down(timeout, maxMissed, life) then [Recovered] else [])
      && Callbacks(timeout, maxMissed, next) == Callbacks(timeout, maxMissed, life) + Due(timeout, maxMissed, next)
  {
    assert Before(Then(life, Beat(now))) == life;
  }

  /** How a check extends what a history says. */
  lemma AfterCheck(timeout: int, maxMissed: int, life: Life, now: int)
    ensures var next, more := Then(life, Check(now)), if Stale(timeout, LastBeat(life), now) then 1 else 0;
      && LastBeat(next) == LastBeat(life) && Misses(timeout, next) == Misses(timeout, life) + more && next.events != []
      && Due(timeout, maxMissed, next) ==
           (if Down(timeout, maxMissed, next) && !Down(timeout, maxMissed, life) then [Unhealthy] else [])
      && Callbacks(timeout, maxMissed, next) == Callbacks(timeout, maxMissed, life) + Due(timeout, maxMissed, next)
  {
    assert Before(Then(life, Check(now))) == life;
  }

  /** The checks since the last heartbeat that found it stale. */
  ghost function StaleChecks(timeout: int, life: Life): set<int> {
    set i | 0 <= i < |life.events| && Stale(timeout, LastBeat(life), life.events[i].t) && ChecksFrom(life, i)
  }

  ghost predicate ChecksFrom(life: Life, i: int) {
    forall j | 0 <= i <= j < |life.events| :: life.events[j].Check?
  }

  /** A server is down when at least one check since its last heartbeat, and as many as the
      threshold asks for, found that heartbeat stale. */
  lemma {:induction false} DownIff(timeout: int, maxMissed: int, life: Life)
    ensures Misses(timeout, life) == |StaleChecks(timeout, life)|
    ensures Down(timeout, maxMissed, life) <==>
      StaleChecks(timeout, life) != {} && |StaleChecks(timeout, life)| >= maxMissed
    decreases |life.events|
  {
    hide Stale;
    if life.events == [] {
      assert StaleChecks(timeout, life) == {};
    } else {
      StaleSnoc(timeout, life);
      DownIff(timeout, maxMissed, Before(life));
      assert |life.events| - 1 !in StaleChecks(timeout, Before(life));
      hide StaleChecks, LastBeat;
    }
  }

  lemma StaleSnoc(timeout: int, life: Life)
    requires life.events != []
    ensures StaleChecks(timeout, life) ==
      if Last(life).Beat? then {}
      else if Stale(timeout, LastBeat(Before(life)), Last(life).t)
      then StaleChecks(timeout, Before(life)) + {|life.events| - 1} else StaleChecks(timeout, Before(life))
  {
    hide Stale;
    var n, init := |life.events| - 1, Before(life).events;
    assert forall i | 0 <= i < n :: init[i] == life.events[i];
  }

  /** Staleness in nanoseconds: whole seconds beyond the timeout. */
  lemma StaleIff(timeout: int, last: int, now: int)
    ensures Stale(timeout, last, now) <==>
      last != 0 && if timeout >= 0 then now - last >= (timeout + 1) * SECOND else now - last > timeout * SECOND
  {}

  /** A clock that never runs backwards: once stale, every further check is a miss, so the
      callback comes exactly at the limit-th check after the heartbeat turns stale. */
  lemma {:induction false} MissesCountEveryCheck(timeout: int, life: Life, k: nat)
    requires 0 < k <= |life.events| && life.born != 0 &&
      Stale(timeout, LastBeat(life), life.events[|life.events| - k].t)
    requires forall i | |life.events| - k <= i < |life.events| :: life.events[i].Check?
    requires forall i, j | |life.events| - k <= i <= j < |life.events| :: life.events[i].t <= life.events[j].t
    ensures Misses(timeout, life) >= k
    decreases k
  {
    var before := Before(life);
    assert LastBeat(before) == LastBeat(life);
    var t0, t1 := life.events[|life.events| - k].t, Last(life).t;
    assert t0 <= t1;
    SecondsGrow(t0 - LastBeat(life), t1 - LastBeat(life));
    if k > 1 { MissesCountEveryCheck(timeout, before, k - 1); }
  }

  lemma SecondsGrow(a: int, b: int)
    requires a <= b
    ensures Seconds(a) <= Seconds(b)
  {}

  // ---- the monitor

  class Monitor {
    const timeout: int
    const maxMissed: int
    var servers: map<int, Health>
    /** The current registration of each tracked server, and the callbacks decided so far. */
    ghost var lives: map<int, Life>
    ghost var decided: map<int, seq<Callback>>

    ghost predicate Tracks(sid: int)
      reads this
      requires sid in servers
    {
      && sid in lives && sid in decided && Agrees(timeout, maxMissed, lives[sid], servers[sid])
      && decided[sid] == Callbacks(timeout, maxMissed, lives[sid])
    }

    /** Every record agrees with the history of its server's current registration, and the
        callbacks made are those that the history decided for. */
    ghost predicate Valid()
      reads this
    {
      servers.Keys == lives.Keys == decided.Keys && forall sid | sid in servers :: Tracks(sid)
    }

    constructor (timeoutSec: int, max: int)
      ensures Valid() && servers == map[] && timeout == timeoutSec && maxMissed == max
    {
      timeout, maxMissed := timeoutSec, max;
      servers, lives, decided := map[], map[], map[];
    }

    method RegisterServer(sid: int, ip: string, now: int)
      requires Valid()
      modifies this
      ensures Valid()
      ensures servers == if sid in old(servers) then old(servers) else old(servers)[sid := Health(ip, true, now, 0)]
      ensures lives == if sid in old(lives) then old(lives) else old(lives)[sid := Life(now, [])]
      ensures decided == if sid in old(decided) then old(decided) else old(decided)[sid := []]
    {
      if sid !in servers {
        servers := servers[sid := Health(ip, true, now, 0)];
        lives, decided := lives[sid := Life(now, [])], decided[sid := []];
      }
    }

    method DeregisterServer(sid: int)
      requires Valid()
      modifies this
      ensures Valid() && lives == old(lives) - {sid} && decided == old(decided) - {sid}
    {
      servers := servers - {sid};
      lives, decided := lives - {sid}, decided - {sid};
    }

    /** The locked part of a heartbeat. It begins a registration for an unknown server; for a known one it is an
        event of the registration it has. */
    method RecordHeartbeat(sid: int, ip: string, now: int) returns (recovered: bool)
      requires Valid()
      modifies this
      ensures Valid()
      ensures servers == old(servers)[sid := Health(ip, true, now, 0)]
      ensures sid !in old(lives) ==>
        lives == old(lives)[sid := Life(now, [])] && !recovered && decided == old(decided)[sid := []]
      ensures sid in old(lives) ==>
        && lives == old(lives)[sid := Then(old(lives)[sid], Beat(now))]
        && decided == old(decided)[sid := old(decided)[sid] + if recovered then [Recovered] else []]
        && (recovered <==> Down(timeout, maxMissed, old(lives)[sid]))
    {
      hide Then, Due, Misses, LastBeat, Callbacks;
      assert sid in servers ==> Tracks(sid);
      var record := if sid in servers then servers[sid] else Health("", true, 0, 0);
      var wasUnhealthy := !record.isHealthy && record.lastHeartbeat != 0;
      servers := servers[sid := Health(ip, true, now, 0)];
      recovered := wasUnhealthy;
      if sid in lives {
        DownMeansHeard(timeout, maxMissed, lives[sid]);
        AfterBeat(timeout, maxMissed, lives[sid], now);
        lives := lives[sid := Then(lives[sid], Beat(now))];
        decided := decided[sid := decided[sid] + if recovered then [Recovered] else []];
      } else {
        Newborn(timeout, maxMissed, now);
        lives, decided := lives[sid := Life(now, [])], decided[sid := []];
      }
      assert forall s | s in old(servers) && s != sid :: old(Tracks(s));
    }

    lemma SameKeys()
      requires Valid()
      ensures servers.Keys == lives.Keys == decided.Keys
    {}

    /** One server of a check. */
    method CheckOne(sid: int, now: int) returns (unhealthy: bool)
      requires Valid() && sid in servers
      modifies this
      ensures Valid() && servers.Keys == old(servers.Keys)
      ensures lives == old(lives)[sid := Then(old(lives)[sid], Check(now))]
      ensures unhealthy <==> Due(timeout, maxMissed, lives[sid]) == [Unhealthy]
      ensures decided == old(decided)[sid := old(decided)[sid] + if unhealthy then [Unhealthy] else []]
    {
      hide Then, Due, Misses, LastBeat, Callbacks, Seconds;
      var h := servers[sid];
      unhealthy := false;
      assert Tracks(sid);
      AfterCheck(timeout, maxMissed, lives[sid], now);
      if h.lastHeartbeat != 0 {
        var elapsed := Seconds(now - h.lastHeartbeat);
        if elapsed > timeout {
          h := h.(missed := h.missed + 1);
          if h.isHealthy && h.missed >= maxMissed {
            h := h.(isHealthy := false);
            unhealthy := true;
          }
          servers := servers[sid := h];
        }
      }
      lives := lives[sid := Then(lives[sid], Check(now))];
      decided := decided[sid := decided[sid] + if unhealthy then [Unhealthy] else []];
      assert forall s | s in old(servers) && s != sid :: old(Tracks(s));
    }

    /** The locked part of a check: the callbacks are decided once each, in ascending order of
        server ids, for exactly the servers whose history decided for one now. */
    method CheckHealth(now: int) returns (newly: seq<int>)
      requires Valid()
      modifies this
      ensures Valid() && servers.Keys == old(servers.Keys)
      ensures lives.Keys == servers.Keys && Ascends(newly, servers.Keys)
      ensures forall sid | sid in servers ::
        && Checked(old(lives)[sid], lives[sid], now)
        && (sid in newly <==> Due(timeout, maxMissed, lives[sid]) == [Unhealthy])
    {
      hide Due, Misses, LastBeat, Callbacks, Agrees, Monitor.Valid, Ascends, InOrder, Passed;
      newly := [];
      SameKeys();
      StartPass(lives, now, timeout, maxMissed);
      var todo := servers.Keys;
      ghost var seen: set<int> := {};
      while todo != {}
        invariant Valid() && servers.Keys == old(servers.Keys)
        invariant Passed(old(lives), lives, seen, todo, newly, now, timeout, maxMissed)
        decreases |todo|
      {
        var sid := Smallest(todo);
        SameKeys();
        ghost var before := lives;
        PassCovers(old(lives), lives, seen, todo, newly, now, timeout, maxMissed);
        var unhealthy := CheckOne(sid, now);
        StepPass(old(lives), before, lives, seen, todo, newly, now, timeout, maxMissed, sid, unhealthy);
        if unhealthy { newly := newly + [sid]; }
        seen, todo := seen + {sid}, todo - {sid};
      }
      SameKeys();
      PassCovers(old(lives), lives, seen, {}, newly, now, timeout, maxMissed);
    }
  }

  predicate Checked(was: Life, life: Life, now: int) { life == Then(was, Check(now)) && life.events != [] }

  ghost predicate Ascends(s: seq<int>, seen: set<int>) {
    && (forall i | 0 <= i < |s| :: s[i] in seen)
    && (forall i, j | 0 <= i < j < |s| :: s[i] < s[j])
  }

  ghost predicate InOrder(seen: set<int>, todo: set<int>) { forall a, b | a in seen && b in todo :: a < b }

  lemma StartOrder(todo: set<int>)
    ensures Ascends([], {}) && InOrder({}, todo)
  {}

  /** How far a pass over the servers has come. */
  ghost predicate Passed(was: map<int, Life>, lives: map<int, Life>, seen: set<int>, todo: set<int>, newly: seq<int>,
                         now: int, timeout: int, maxMissed: int)
  {
    && was.Keys == lives.Keys == seen + todo && Ascends(newly, seen) && InOrder(seen, todo)
    && (forall sid | sid in todo :: lives[sid] == was[sid])
    && (forall sid | sid in seen ::
          && Checked(was[sid], lives[sid], now)
          && (sid in newly <==> Due(timeout, maxMissed, lives[sid]) == [Unhealthy]))
  }

  lemma StartPass(lives: map<int, Life>, now: int, timeout: int, maxMissed: int)
    ensures Passed(lives, lives, {}, lives.Keys, [], now, timeout, maxMissed)
  {
    StartOrder(lives.Keys);
  }

  lemma PassCovers(was: map<int, Life>, lives: map<int, Life>, seen: set<int>, todo: set<int>, newly: seq<int>,
                   now: int, timeout: int, maxMissed: int)
    requires Passed(was, lives, seen, todo, newly, now, timeout, maxMissed)
    ensures todo <= lives.Keys == was.Keys
    ensures todo == {} ==> Ascends(newly, lives.Keys) && forall sid | sid in lives ::
      && Checked(was[sid], lives[sid], now)
      && (sid in newly <==> Due(timeout, maxMissed, lives[sid]) == [Unhealthy])
  {
    hide Due, Ascends;
    assert todo == {} ==> seen == lives.Keys;
  }

  lemma StepPass(was: map<int, Life>, lives: map<int, Life>, after: map<int, Life>, seen: set<int>, todo: set<int>,
                 newly: seq<int>, now: int, timeout: int, maxMissed: int, sid: int, fired: bool)
    requires Passed(was, lives, seen, todo, newly, now, timeout, maxMissed)
    requires sid in todo && forall b | b in todo :: sid <= b
    requires sid in lives && after == lives[sid := Then(lives[sid], Check(now))]
    requires after[sid].events != [] && (fired <==> Due(timeout, maxMissed, after[sid]) == [Unhealthy])
    ensures Passed(was, after, seen + {sid}, todo - {sid},
      if fired then newly + [sid] else newly, now, timeout, maxMissed)
  {
    hide Due, Ascends, InOrder, Then;
    StepOrder(newly, seen, todo, sid);
  }

  lemma StepOrder(s: seq<int>, seen: set<int>, todo: set<int>, x: int)
    requires Ascends(s, seen) && InOrder(seen, todo) && x in todo && forall b | b in todo :: x <= b
    ensures Ascends(s, seen + {x}) && Ascends(s + [x], seen + {x}) && InOrder(seen + {x}, todo - {x})
    ensures x !in seen && x !in s
  {
    assert forall i | 0 <= i < |s| :: s[i] in seen;
  }

  lemma Newborn(timeout: int, maxMissed: int, now: int)
    ensures var life := Life(now, []);
      LastBeat(life) == now && Misses(timeout, life) == 0 && Callbacks(timeout, maxMissed, life) == []
  {}

  /** A server that was never heard of cannot be down. */
  lemma {:induction false} DownMeansHeard(timeout: int, maxMissed: int, life: Life)
    ensures Misses(timeout, life) > 0 ==> LastBeat(life) != 0
    decreases |life.events|
  {
    if life.events != [] { DownMeansHeard(timeout, maxMissed, Before(life)); }
  }
}
