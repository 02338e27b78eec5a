/** The callbacks of the health monitor as they are made: heartbeats and checks run in two
    threads, and each decides under the lock and calls after it has let go of it. */
module HealthCallbacks {
  import opened HealthMonitor

  /** One server within one registration: its history, the calls still owed in the order in
      which they were decided, and the calls made. */
  datatype Watch = Watch(life: Life, owed: seq<Callback>, made: seq<Callback>)

  datatype Limits = Limits(timeout: int, maxMissed: int)

  /** The heartbeat thread hears, the check thread checks, and each makes its calls. */
  datatype Act = Hears(now: int) | Checks(now: int) | Calls(c: Callback)

  /** A thread makes the call it owes before it goes on. */
  predicate Possible(w: Watch, a: Act) {
    match a
    case Hears(_) => Recovered !in w.owed
    case Checks(_) => Unhealthy !in w.owed
    case Calls(c) => c in w.owed
  }

  function Removed(owed: seq<Callback>, c: Callback): seq<Callback> {
    if owed == [] then [] else if owed[0] == c then owed[1..] else [owed[0]] + Removed(owed[1..], c)
  }

  function Lives(lim: Limits, w: Watch, e: Event): Watch {
    var life := Then(w.life, e);
    Watch(life, w.owed + Due(lim.timeout, lim.maxMissed, life), w.made)
  }

  function Apply(lim: Limits, w: Watch, a: Act): Watch {
    match a
    case Hears(now) => Lives(lim, w, Beat(now))
    case Checks(now) => Lives(lim, w, Check(now))
    case Calls(c) => Watch(w.life, Removed(w.owed, c), w.made + [c])
  }

  function Decided(lim: Limits, w: Watch): seq<Callback> { Callbacks(lim.timeout, lim.maxMissed, w.life) }

  /** Calls are made in the order in which they were decided; each thread owes at most one. */
  ghost predicate InOrder(lim: Limits, w: Watch) {
    Decided(lim, w) == w.made + w.owed && forall i, j | 0 <= i < j < |w.owed| :: w.owed[i] != w.owed[j]
  }

  /** The oldest call is made first. */
  predicate Oldest(w: Watch, a: Act) { a.Calls? ==> w.owed != [] && w.owed[0] == a.c }

  lemma OnlyTwo(owed: seq<Callback>)
    requires forall i, j | 0 <= i < j < |owed| :: owed[i] != owed[j]
    ensures |owed| <= 2
  {
    assert |owed| > 2 ==> owed[0] != owed[1] && owed[1] != owed[2] && owed[0] != owed[2];
  }

  lemma DecidingKeepsOrder(lim: Limits, w: Watch, a: Act)
    requires InOrder(lim, w) && !a.Calls? && Possible(w, a)
    ensures InOrder(lim, Apply(lim, w, a)) && Apply(lim, w, a).made == w.made
  {
    hide Due, Callbacks, Then, Down;
    if a.Hears? {
      AfterBeat(lim.timeout, lim.maxMissed, w.life, a.now);
    } else {
      AfterCheck(lim.timeout, lim.maxMissed, w.life, a.now);
    }
    var due := Due(lim.timeout, lim.maxMissed, Apply(lim, w, a).life);
    assert (w.made + w.owed) + due == w.made + (w.owed + due);
  }

  /** Calls made so far are the first decisions, so they alternate. */
  lemma InOrderAlternates(lim: Limits, w: Watch)
    requires InOrder(lim, w)
    ensures Alternating(w.made) && Alternating(Decided(lim, w))
  {
    hide Callbacks;
    DecisionsAlternate(lim.timeout, lim.maxMissed, w.life);
    assert forall i | 0 <= i < |w.made| :: w.made[i] == Decided(lim, w)[i];
  }

  /** A call keeps the order, and the alternation, exactly when it is the oldest one owed. */
  lemma CallKeepsOrderIff(lim: Limits, w: Watch, a: Act)
    requires InOrder(lim, w) && a.Calls? && Possible(w, a)
    ensures Oldest(w, a) ==> InOrder(lim, Apply(lim, w, a))
    ensures Alternating(Apply(lim, w, a).made) <==> Oldest(w, a)
  {
    hide Callbacks;
    InOrderAlternates(lim, w);
    OnlyTwo(w.owed);
    var decided := Decided(lim, w);
    assert decided[|w.made|] == w.owed[0];
    var made := w.made + [a.c];
    if Oldest(w, a) {
      assert made + w.owed[1..] == w.made + w.owed;
    } else {
      assert made[|w.made|] == a.c != w.owed[0];
    }
  }

  // ---- runs

  ghost predicate IsRun(lim: Limits, watches: seq<Watch>, acts: seq<Act>) {
    && |watches| == |acts| + 1 && watches[0].life.events == [] && watches[0].owed == [] == watches[0].made
    && forall k | 0 <= k < |acts| :: Possible(watches[k], acts[k]) && watches[k + 1] == Apply(lim, watches[k], acts[k])
  }

  lemma {:induction false} OldestFirstIsInOrder(lim: Limits, watches: seq<Watch>, acts: seq<Act>, n: nat)
    requires IsRun(lim, watches, acts) && n < |watches| && forall k | 0 <= k < n :: Oldest(watches[k], acts[k])
    ensures InOrder(lim, watches[n]) && Alternating(watches[n].made)
  {
    hide Callbacks, Apply, Possible;
    if n == 0 {
      NothingDecided(lim, watches[0]);
    } else {
      OldestFirstIsInOrder(lim, watches, acts, n - 1);
      if acts[n - 1].Calls? {
        CallKeepsOrderIff(lim, watches[n - 1], acts[n - 1]);
      } else {
        DecidingKeepsOrder(lim, watches[n - 1], acts[n - 1]);
      }
    }
    InOrderAlternates(lim, watches[n]);
  }

  lemma NothingDecided(lim: Limits, w: Watch)
    requires w.life.events == [] && w.owed == [] == w.made
    ensures InOrder(lim, w)
  {}

  /** Over every run of the two threads the calls made alternate, starting with unhealthy, if
      and only if no call is made while an older one of the same server is still owed. */
  lemma CallsAlternateIff(lim: Limits, watches: seq<Watch>, acts: seq<Act>)
    requires IsRun(lim, watches, acts)
    ensures (forall k | 0 <= k < |watches| :: Alternating(watches[k].made)) <==>
            (forall k | 0 <= k < |acts| :: Oldest(watches[k], acts[k]))
  {
    hide Apply, Possible, InOrder, Alternating;
    if forall k | 0 <= k < |acts| :: Oldest(watches[k], acts[k]) {
      forall k | 0 <= k < |watches| ensures Alternating(watches[k].made) {
        OldestFirstIsInOrder(lim, watches, acts, k);
      }
    } else {
      var k := FirstYounger(watches, acts, 0);
      OldestFirstIsInOrder(lim, watches, acts, k);
      CallKeepsOrderIff(lim, watches[k], acts[k]);
      assert !Alternating(watches[k + 1].made);
    }
  }

  lemma FirstYounger(watches: seq<Watch>, acts: seq<Act>, from: nat) returns (k: nat)
    requires |watches| == |acts| + 1 && from <= |acts| &&
      !(forall k | from <= k < |acts| :: Oldest(watches[k], acts[k]))
    ensures from <= k < |acts| && !Oldest(watches[k], acts[k])
    ensures forall j | from <= j < k :: Oldest(watches[j], acts[j])
    decreases |acts| - from
  {
    k := from;
    if Oldest(watches[from], acts[from]) { k := FirstYounger(watches, acts, from + 1); }
  }

  /** The step decides a callback. */
  predicate Decides(lim: Limits, w: Watch, a: Act) { !a.Calls? && Apply(lim, w, a).owed != w.owed }

  /** It is enough that nothing is decided for the server between a decision and its call; and
      then, with no call owed, the last call says whether the server is down. */
  lemma {:induction false} UndisturbedCallsAlternate(lim: Limits, watches: seq<Watch>, acts: seq<Act>, n: nat)
    requires IsRun(lim, watches, acts) && n < |watches|
    requires forall k | 0 <= k < n && Decides(lim, watches[k], acts[k]) :: watches[k].owed == []
    ensures Alternating(watches[n].made) && |watches[n].owed| <= 1
    ensures forall k | 0 <= k < n :: Oldest(watches[k], acts[k])
    ensures watches[n].owed == [] ==>
      (|watches[n].made| % 2 == 1 <==> Down(lim.timeout, lim.maxMissed, watches[n].life))
  {
    hide Callbacks, Due, Alternating;
    if n > 0 {
      UndisturbedCallsAlternate(lim, watches, acts, n - 1);
      OneAtATime(lim, watches[n - 1], acts[n - 1]);
    }
    OldestFirstIsInOrder(lim, watches, acts, n);
    DecisionsAlternate(lim.timeout, lim.maxMissed, watches[n].life);
    if watches[n].owed == [] { assert watches[n].made + [] == watches[n].made; }
  }

  lemma OneAtATime(lim: Limits, w: Watch, a: Act)
    requires |w.owed| <= 1 && Possible(w, a) && (Decides(lim, w, a) ==> w.owed == [])
    ensures Oldest(w, a) && |Apply(lim, w, a).owed| <= 1
  {
    hide Callbacks;
    if !a.Calls? {
      var due := Due(lim.timeout, lim.maxMissed, Apply(lim, w, a).life);
      assert |due| <= 1 && w.owed + due == Apply(lim, w, a).owed;
    }
  }

  /** A check marks the server, a heartbeat arrives and calls recovered, and only then does the
      check call unhealthy: the calls come in the wrong order, and the last one says down for a
      server that is up. */
  lemma LateUnhealthyCall() returns (watches: seq<Watch>, acts: seq<Act>)
    ensures var lim := Limits(1, 1);
      && IsRun(lim, watches, acts) && |acts| == 4
      && watches[4].made == [Recovered, Unhealthy] && !Down(1, 1, watches[4].life) && watches[4].owed == []
  {
    hide Lives, Removed, Down;
    var lim, late := Limits(1, 1), 1 + 2 * SECOND;
    var w0 := Watch(Life(1, []), [], []);
    MarkedThenHeard(w0, late);
    var w1 := Lives(lim, w0, Check(late));
    var w2 := Lives(lim, w1, Beat(late));
    var w3 := Watch(w2.life, [Unhealthy], [Recovered]);
    var w4 := Watch(w2.life, [], [Recovered, Unhealthy]);
    RemovedFromTwo();
    assert [] + [Recovered] == [Recovered] && [Recovered] + [Unhealthy] == [Recovered, Unhealthy];
    acts := [Checks(late), Hears(late), Calls(Recovered), Calls(Unhealthy)];
    watches := [w0, w1, w2, w3, w4];
  }

  lemma MarkedThenHeard(w0: Watch, late: int)
    requires w0 == Watch(Life(1, []), [], []) && late == 1 + 2 * SECOND
    ensures var w1 := Lives(Limits(1, 1), w0, Check(late));
      var w2 := Lives(Limits(1, 1), w1, Beat(late));
      && w1.owed == [Unhealthy] && w1.made == [] && w2.owed == [Unhealthy, Recovered] && w2.made == []
      && !Down(1, 1, w2.life)
  {
    hide Callbacks, LastBeat, Misses, Then, Due;
    Newborn(1, 1, 1);
    AfterCheck(1, 1, w0.life, late);
    assert Seconds(late - 1) == 2;
    var w1 := Lives(Limits(1, 1), w0, Check(late));
    assert w1.owed == [] + [Unhealthy];
    AfterBeat(1, 1, w1.life, late);
    assert [Unhealthy] + [Recovered] == [Unhealthy, Recovered];
  }

  lemma RemovedFromTwo()
    ensures Removed([Unhealthy, Recovered], Recovered) == [Unhealthy] && Removed([Unhealthy], Unhealthy) == []
  {
    assert [Unhealthy, Recovered][1..] == [Recovered] && [Recovered][1..] == [] && [Unhealthy][1..] == [];
    assert Removed([Recovered], Recovered) == [];
  }
}
