/** What a stored chunk promises to later retrieves, over every run: a finished store is
    found and answered with exactly its bytes until it is deleted, replaced or forgotten. */
module ChunkStorageRuns {

  import opened Basics
  import opened Text
  import opened ChunkStorage

  predicate Retrieving(k: Task) { k.Fetching? || k.Opened? || k.Reading? }

  /** The step finishes a store of the id. */
  predicate Registers(s: State, op: Op, id: string) {
    op.Register? && op.t in s.tasks && s.tasks[op.t].Written? && s.tasks[op.t].id == id
  }

  predicate Deletes(op: Op, id: string) { op.BeginDelete? && op.id == id }

  predicate FallsBack(op: Op, id: string) { op.BeginRetrieve? && op.id == id && op.fallback != "" }

  // ---- single steps

  /** A store keeps its name and its bytes until it registers, unless it fails. */
  lemma StoreStep(s: State, op: Op, t: nat)
    requires Allowed(s, op) && t in s.tasks && Storing(s.tasks[t])
    requires !op.Restart? && op != Fail(t) && op != Register(t)
    ensures var r := Apply(s, op);
      && t in r.tasks && Storing(r.tasks[t])
      && r.tasks[t].id == s.tasks[t].id && r.tasks[t].path == s.tasks[t].path && r.tasks[t].bytes == s.tasks[t].bytes
  {
    hide PathOf, Filled, Content, IsStoreOf;
  }

  /** A store call is never forgotten or overwritten. */
  lemma IssueStep(s: State, op: Op, p: string)
    requires Consistent(s) && Allowed(s, op) && p in s.history.issued
    ensures p in Apply(s, op).history.issued && Apply(s, op).history.issued[p] == s.history.issued[p]
  {
    hide PathOf, Filled, Content, IsStoreOf, Disk, Tasks, Answered, Stamped;
    if op.BeginStore? { PathIsFresh(s, op.id); }
  }

  lemma RegistryStep(s: State, op: Op, id: string)
    requires Allowed(s, op) && id in s.registry
    requires !op.Restart? && !Deletes(op, id) && !Registers(s, op, id)
    ensures id in Apply(s, op).registry && Apply(s, op).registry[id] == s.registry[id]
  {
    hide PathOf, Filled, Content, IsStoreOf;
  }

  lemma AbsentStep(s: State, op: Op, id: string)
    requires Allowed(s, op) && id !in s.registry && !Registers(s, op, id) && !FallsBack(op, id)
    ensures id !in Apply(s, op).registry
  {
    hide PathOf, Filled, Content, IsStoreOf;
  }

  ghost predicate At(s: State, u: nat, id: string, path: string) {
    u in s.tasks ==> Retrieving(s.tasks[u]) && s.tasks[u].id == id && s.tasks[u].path == path
  }

  predicate Begins(op: Op, u: nat) { (op.BeginStore? || op.BeginRetrieve? || op.BeginDelete?) && op.t == u }

  /** A retrieve stays with its id and its path. */
  lemma RetrieveStep(s: State, op: Op, u: nat, id: string, path: string)
    requires Allowed(s, op) && At(s, u, id, path) && !Begins(op, u)
    ensures At(Apply(s, op), u, id, path)
  {
    hide PathOf, Filled, Content, IsStoreOf;
  }

  /** The file has its name, and no delete is about to remove it. */
  ghost predicate InPlace(s: State, path: string) {
    path in s.files.names && forall t | t in s.tasks :: s.tasks[t] != Removing(path)
  }

  /** As long as the file is in place, a retrieve only ends by failing or answering. */
  lemma RetrieveGoesOn(s: State, op: Op, u: nat)
    requires Allowed(s, op) && u in s.tasks && Retrieving(s.tasks[u]) && InPlace(s, s.tasks[u].path)
    requires !op.Restart? && op != Fail(u) && op != EndRead(u)
    ensures u in Apply(s, op).tasks
  {
    hide PathOf, Filled, Content, IsStoreOf;
  }

  /** A file being written has its name, and only finished files are removed. */
  ghost predicate Named(s: State) {
    forall t | t in s.tasks ::
      && (s.tasks[t].Writing? || s.tasks[t].Written? ==> s.tasks[t].path in s.files.names)
      && (s.tasks[t].Removing? ==> s.tasks[t].path in s.history.finished)
  }

  lemma NamedStep(s: State, op: Op)
    requires Consistent(s) && Named(s) && Allowed(s, op)
    ensures Named(Apply(s, op))
  {
    hide PathOf, Filled, Content, Disk, Answered, Stamped;
    if op.Remove? {
      forall t | t in s.tasks && (s.tasks[t].Writing? || s.tasks[t].Written?)
        ensures s.tasks[t].path != s.tasks[op.t].path
      {
        assert Sound(s, s.tasks[t]);
      }
    }
  }

  lemma InPlaceStep(s: State, op: Op, path: string, id: string)
    requires Consistent(s) && Allowed(s, op) && InPlace(s, path) && IsStoreOf(s, path, id) && !Deletes(op, id)
    ensures InPlace(Apply(s, op), path)
  {
    hide PathOf, Filled, Content, Disk, Answered, Stamped, Tasks;
  }

  // ---- whole runs

  ghost predicate Legal(states: seq<State>, ops: seq<Op>) { IsRun(states, ops) && IsStart(states[0]) }

  lemma {:induction false} EveryState(states: seq<State>, ops: seq<Op>, k: nat)
    requires Legal(states, ops) && k < |states|
    ensures Consistent(states[k]) && Named(states[k])
  {
    hide Apply, Allowed, Consistent;
    EveryRetrieveIsWhole(states, ops, k);
    if k > 0 {
      EveryState(states, ops, k - 1);
      NamedStep(states[k - 1], ops[k - 1]);
    }
  }

  /** The store call of step `a` is finished by step `i`: its thread registers there, and
      has neither failed nor registered before. */
  ghost predicate Stored(ops: seq<Op>, a: nat, i: nat) {
    && a < i < |ops| && ops[a].BeginStore? && ops[i] == Register(ops[a].t)
    && forall m | a < m < i :: !ops[m].Restart? && ops[m] != Fail(ops[a].t) && ops[m] != Register(ops[a].t)
  }

  /** The path of the store call of step `a`. */
  ghost function PathAt(states: seq<State>, ops: seq<Op>, a: nat): string
    requires IsRun(states, ops) && a < |ops| && ops[a].BeginStore?
  {
    PathOf(states[a].dir, ops[a].id, states[a].time.clock, states[a].time.number + 1)
  }

  /** Between two steps the id is neither stored again nor deleted, and nothing restarts. */
  ghost predicate Kept(states: seq<State>, ops: seq<Op>, id: string, i: nat, j: nat)
    requires IsRun(states, ops) && j <= |ops|
  {
    forall m | i < m < j :: !ops[m].Restart? && !Deletes(ops[m], id) && !Registers(states[m], ops[m], id)
  }

  lemma BeginIs(states: seq<State>, ops: seq<Op>, a: nat)
    requires Legal(states, ops) && a < |ops| && ops[a].BeginStore?
    ensures states[a + 1].tasks == states[a].tasks[ops[a].t := Queued(ops[a].id, PathAt(states, ops, a), ops[a].bytes)]
  {
    hide PathOf, Content, Filled;
  }

  /** A store that has not failed is still at work on the bytes it was given. */
  lemma {:induction false} StoreStays(states: seq<State>, ops: seq<Op>, a: nat, i: nat)
    requires Legal(states, ops) && a < i <= |ops| && ops[a].BeginStore?
    requires forall m | a < m < i :: !ops[m].Restart? && ops[m] != Fail(ops[a].t) && ops[m] != Register(ops[a].t)
    ensures var t := ops[a].t;
      && t in states[i].tasks && Storing(states[i].tasks[t])
      && states[i].tasks[t].id == ops[a].id && states[i].tasks[t].bytes == ops[a].bytes
      && states[i].tasks[t].path == PathAt(states, ops, a)
  {
    hide Apply, Allowed, PathAt;
    if i == a + 1 {
      BeginIs(states, ops, a);
    } else {
      StoreStays(states, ops, a, i - 1);
      StoreStep(states[i - 1], ops[i - 1], ops[a].t);
    }
  }

  lemma RegisterIs(s: State, op: Op)
    requires Consistent(s) && Named(s) && op.Register? && Allowed(s, op)
    ensures var r, k := Apply(s, op), s.tasks[op.t];
      && k.id in r.registry && r.registry[k.id] == k.path && IsStoreOf(r, k.path, k.id)
      && r.history.issued[k.path].bytes == k.bytes && InPlace(r, k.path)
  {
    hide Stamped, Disk, Answered;
    assert Sound(s, s.tasks[op.t]);
  }

  /** After the step that finishes a store, its id leads to its path, which holds its bytes. */
  lemma StoreIsRegistered(states: seq<State>, ops: seq<Op>, a: nat, i: nat)
    requires Legal(states, ops) && Stored(ops, a, i)
    ensures var r, path := states[i + 1], PathAt(states, ops, a);
      && ops[a].id in r.registry && r.registry[ops[a].id] == path && IsStoreOf(r, path, ops[a].id)
      && r.history.issued[path].bytes == ops[a].bytes && InPlace(r, path)
  {
    hide Apply, PathAt, Consistent, Named, InPlace;
    StoreStays(states, ops, a, i);
    EveryState(states, ops, i);
    RegisterIs(states[i], ops[i]);
  }

  lemma {:induction false} RegistryKept(states: seq<State>, ops: seq<Op>, id: string, i: nat, j: nat)
    requires Legal(states, ops) && i < j <= |ops| && id in states[i + 1].registry && Kept(states, ops, id, i, j)
    ensures id in states[j].registry && states[j].registry[id] == states[i + 1].registry[id]
  {
    hide Apply, Allowed, Registers, Deletes;
    if j > i + 1 {
      RegistryKept(states, ops, id, i, j - 1);
      RegistryStep(states[j - 1], ops[j - 1], id);
    }
  }

  /** A retrieve of an id fetches the path of the store that finished last, unless the id was
      deleted or the process restarted since. */
  lemma StoreIsFound(states: seq<State>, ops: seq<Op>, a: nat, i: nat, j: nat)
    requires Legal(states, ops) && Stored(ops, a, i) && i < j < |ops|
    requires ops[j].BeginRetrieve? && ops[j].id == ops[a].id && Kept(states, ops, ops[a].id, i, j)
    ensures states[j + 1].results == states[j].results
    ensures states[j + 1].tasks == states[j].tasks[ops[j].t := Fetching(ops[a].id, PathAt(states, ops, a))]
  {
    hide PathAt, IsStoreOf, InPlace, Filled, Content, PathOf;
    StoreIsRegistered(states, ops, a, i);
    RegistryKept(states, ops, ops[a].id, i, j);
  }

  lemma {:induction false} IssueKept(states: seq<State>, ops: seq<Op>, p: string, i: nat, j: nat)
    requires Legal(states, ops) && i <= j <= |ops| && p in states[i].history.issued
    ensures p in states[j].history.issued && states[j].history.issued[p] == states[i].history.issued[p]
  {
    hide Apply, Allowed, Consistent;
    if j > i {
      IssueKept(states, ops, p, i, j - 1);
      EveryState(states, ops, j - 1);
      IssueStep(states[j - 1], ops[j - 1], p);
    }
  }

  lemma {:induction false} RetrieveKept(states: seq<State>, ops: seq<Op>, u: nat, id: string, path: string,
                                        j: nat, e: nat)
    requires Legal(states, ops) && j < e <= |ops| && At(states[j + 1], u, id, path)
    requires forall m | j < m < e :: !Begins(ops[m], u)
    ensures At(states[e], u, id, path)
  {
    hide Apply, Allowed, At, Begins;
    if e > j + 1 {
      RetrieveKept(states, ops, u, id, path, j, e - 1);
      RetrieveStep(states[e - 1], ops[e - 1], u, id, path);
    }
  }

  lemma EndIs(s: State, op: Op)
    requires Consistent(s) && op.EndRead? && Allowed(s, op)
    ensures var k := s.tasks[op.t];
      k.path in s.history.issued && Apply(s, op).results == s.results + [(k.id, s.history.issued[k.path].bytes)]
  {
    hide Consistent, PathOf;
    ReadIsComplete(s, op);
  }

  /** That retrieve, when it ends its reading, answers with exactly the bytes of that store,
      whatever other threads do meanwhile. */
  lemma StoreIsRead(states: seq<State>, ops: seq<Op>, a: nat, i: nat, j: nat, e: nat)
    requires Legal(states, ops) && Stored(ops, a, i) && i < j < e < |ops|
    requires ops[j].BeginRetrieve? && ops[j].id == ops[a].id && Kept(states, ops, ops[a].id, i, j)
    requires ops[e] == EndRead(ops[j].t) && forall m | j < m < e :: !Begins(ops[m], ops[j].t)
    ensures states[e + 1].results == states[e].results + [(ops[a].id, ops[a].bytes)]
  {
    hide Apply, PathAt, IsStoreOf, InPlace, Consistent, Begins, Kept;
    var path := PathAt(states, ops, a);
    StoreIsRegistered(states, ops, a, i);
    StoreIsFound(states, ops, a, i, j);
    RetrieveKept(states, ops, ops[j].t, ops[a].id, path, j, e);
    StoreIssued(states[i + 1], path, ops[a].id);
    IssueKept(states, ops, path, i + 1, e);
    EveryState(states, ops, e);
    EndIs(states[e], ops[e]);
  }

  lemma StoreIssued(s: State, path: string, id: string)
    requires IsStoreOf(s, path, id)
    ensures path in s.history.issued
  {}

  lemma {:induction false} PlaceKept(states: seq<State>, ops: seq<Op>, path: string, id: string, i: nat, e: nat)
    requires Legal(states, ops) && i < e <= |ops| && InPlace(states[i + 1], path) && IsStoreOf(states[i + 1], path, id)
    requires forall m | i < m < e :: !Deletes(ops[m], id)
    ensures InPlace(states[e], path) && IsStoreOf(states[e], path, id)
  {
    hide Apply, Allowed, Consistent, InPlace, Deletes;
    if e > i + 1 {
      PlaceKept(states, ops, path, id, i, e - 1);
      EveryState(states, ops, e - 1);
      InPlaceStep(states[e - 1], ops[e - 1], path, id);
      FinishedStep(states[e - 1], ops[e - 1], path, id);
    }
  }

  lemma FinishedStep(s: State, op: Op, path: string, id: string)
    requires Consistent(s) && Allowed(s, op) && IsStoreOf(s, path, id)
    ensures IsStoreOf(Apply(s, op), path, id)
  {
    IssueStep(s, op, path);
    hide PathOf, Filled, Content, Consistent;
  }

  /** As long as the id is not deleted, that retrieve never answers with nothing: it is still
      at work until it ends its reading or fails. */
  lemma {:induction false} StoreIsServed(states: seq<State>, ops: seq<Op>, a: nat, i: nat, j: nat, e: nat)
    requires Legal(states, ops) && Stored(ops, a, i) && i < j < e <= |ops|
    requires ops[j].BeginRetrieve? && ops[j].id == ops[a].id && Kept(states, ops, ops[a].id, i, j)
    requires forall m | j < m < e ::
      !ops[m].Restart? && !Deletes(ops[m], ops[a].id) && ops[m] != Fail(ops[j].t) && ops[m] != EndRead(ops[j].t)
    ensures var u := ops[j].t;
      && u in states[e].tasks && Retrieving(states[e].tasks[u])
      && states[e].tasks[u].id == ops[a].id && states[e].tasks[u].path == PathAt(states, ops, a)
  {
    hide Apply, PathAt, IsStoreOf, InPlace, Consistent, Deletes, PathOf, Kept, Retrieving, Begins, Allowed;
    var u, path := ops[j].t, PathAt(states, ops, a);
    StoreIsFound(states, ops, a, i, j);
    if e == j + 1 {
      FetchIsRetrieving(ops[a].id, path);
    } else {
      StoreIsServed(states, ops, a, i, j, e - 1);
      NotDeleted(states, ops, ops[a].id, i, j, e - 1);
      StoreIsRegistered(states, ops, a, i);
      PlaceKept(states, ops, path, ops[a].id, i, e - 1);
      RetrieveGoesOn(states[e - 1], ops[e - 1], u);
      AtWorkIsNotBegun(states[e - 1], ops[e - 1], u);
      RetrieveStep(states[e - 1], ops[e - 1], u, ops[a].id, path);
    }
  }

  lemma FetchIsRetrieving(id: string, path: string)
    ensures Retrieving(Fetching(id, path))
  {}

  lemma AtWorkIsNotBegun(s: State, op: Op, u: nat)
    requires Allowed(s, op) && u in s.tasks
    ensures !Begins(op, u)
  {}

  lemma NotDeleted(states: seq<State>, ops: seq<Op>, id: string, i: nat, j: nat, e: nat)
    requires IsRun(states, ops) && i < j < e <= |ops| && Kept(states, ops, id, i, j) && ops[j].BeginRetrieve?
    requires forall m | j < m < e :: !Deletes(ops[m], id)
    ensures forall m | i < m < e :: !Deletes(ops[m], id)
  {}

  lemma {:induction false} AbsenceKept(states: seq<State>, ops: seq<Op>, id: string, d: nat, j: nat)
    requires Legal(states, ops) && d < j <= |ops| && id !in states[d + 1].registry
    requires forall m | d < m < j :: !Registers(states[m], ops[m], id) && !FallsBack(ops[m], id)
    ensures id !in states[j].registry
  {
    hide Apply, Allowed, Registers, FallsBack;
    if j > d + 1 {
      AbsenceKept(states, ops, id, d, j - 1);
      AbsentStep(states[j - 1], ops[j - 1], id);
    }
  }

  /** The step makes the node forget the id. */
  predicate Forgets(op: Op, id: string) { Deletes(op, id) || op.Restart? }

  /** After a delete or a restart, and before another store of the id finishes, a retrieve
      answers with nothing exactly when no file exists under its fallback path; otherwise it
      fetches that file. A retrieve without a fallback, in particular, answers with nothing. */
  lemma DeletedIsGone(states: seq<State>, ops: seq<Op>, d: nat, j: nat)
    requires Legal(states, ops) && d < j < |ops| && ops[j].BeginRetrieve? && Forgets(ops[d], ops[j].id)
    requires forall m | d < m < j :: !Registers(states[m], ops[m], ops[j].id) && !FallsBack(ops[m], ops[j].id)
    ensures var s, r, op := states[j], states[j + 1], ops[j];
      if op.fallback == "" || op.fallback !in s.files.names
      then r.results == s.results + [(op.id, [])] && r.tasks == s.tasks
      else r.results == s.results && r.tasks == s.tasks[op.t := Fetching(op.id, op.fallback)]
  {
    hide Registers, FallsBack, PathOf, Filled, Content, IsStoreOf;
    assert ops[j].id !in states[d + 1].registry;
    AbsenceKept(states, ops, ops[j].id, d, j);
  }

  /** A file found under a fallback path is remembered: later retrieves of the id fetch it. */
  lemma FallbackIsFound(states: seq<State>, ops: seq<Op>, i: nat, j: nat)
    requires Legal(states, ops) && i < j < |ops| && ops[j].BeginRetrieve? && FallsBack(ops[i], ops[j].id)
    requires ops[j].id !in states[i].registry && ops[i].fallback in states[i].files.names
    requires Kept(states, ops, ops[j].id, i, j)
    ensures states[j + 1].results == states[j].results
    ensures states[j + 1].tasks == states[j].tasks[ops[j].t := Fetching(ops[j].id, ops[i].fallback)]
  {
    hide PathOf, Filled, Content, IsStoreOf;
    assert states[i + 1].registry[ops[j].id] == ops[i].fallback;
    RegistryKept(states, ops, ops[j].id, i, j);
  }

  // ---- what a delete leaves

  ghost predicate RemovesOnly(s: State, t: nat, path: string) { t in s.tasks ==> s.tasks[t] == Removing(path) }

  lemma RemovingStep(s: State, op: Op, t: nat, path: string)
    requires Allowed(s, op) && RemovesOnly(s, t, path) && !Begins(op, t)
    ensures RemovesOnly(Apply(s, op), t, path)
  {
    hide PathOf, Filled, Content, IsStoreOf;
  }

  /** A finished path is never created again. */
  lemma GoneStep(s: State, op: Op, path: string)
    requires Consistent(s) && Allowed(s, op) && path in s.history.finished && path !in s.files.names
    ensures path in Apply(s, op).history.finished && path !in Apply(s, op).files.names
  {
    hide PathOf, Filled, Content, IsStoreOf, Disk, Answered, Stamped;
    if op.OpenForWrite? { assert Sound(s, s.tasks[op.t]); }
  }

  lemma {:induction false} GoneKept(states: seq<State>, ops: seq<Op>, path: string, x: nat, j: nat)
    requires Legal(states, ops) && x < j <= |ops|
    requires path in states[x + 1].history.finished && path !in states[x + 1].files.names
    ensures path in states[j].history.finished && path !in states[j].files.names
  {
    hide Apply, Allowed, Consistent;
    if j > x + 1 {
      GoneKept(states, ops, path, x, j - 1);
      EveryState(states, ops, j - 1);
      GoneStep(states[j - 1], ops[j - 1], path);
    }
  }

  lemma {:induction false} RemovalKept(states: seq<State>, ops: seq<Op>, t: nat, path: string, d: nat, x: nat)
    requires Legal(states, ops) && d < x <= |ops| && RemovesOnly(states[d + 1], t, path)
    requires forall m | d < m < x :: !Begins(ops[m], t)
    ensures RemovesOnly(states[x], t, path)
  {
    hide Apply, Allowed, RemovesOnly, Begins;
    if x > d + 1 {
      RemovalKept(states, ops, t, path, d, x - 1);
      RemovingStep(states[x - 1], ops[x - 1], t, path);
    }
  }

  /** A delete takes the file of the store that finished last, and once it has removed it no
      file exists under that path again. */
  lemma DeletedIsRemoved(states: seq<State>, ops: seq<Op>, a: nat, i: nat, d: nat, x: nat, j: nat)
    requires Legal(states, ops) && Stored(ops, a, i) && i < d < x < j <= |ops|
    requires Deletes(ops[d], ops[a].id) && Kept(states, ops, ops[a].id, i, d)
    requires ops[x] == Remove(ops[d].t) && forall m | d < m < x :: !Begins(ops[m], ops[d].t)
    ensures PathAt(states, ops, a) !in states[j].files.names
  {
    hide PathAt, InPlace, Consistent, PathOf, Filled, Content, Begins;
    var path := PathAt(states, ops, a);
    StoreIsRegistered(states, ops, a, i);
    RegistryKept(states, ops, ops[a].id, i, d);
    assert states[d + 1].tasks[ops[d].t] == Removing(path);
    RemovalKept(states, ops, ops[d].t, path, d, x);
    EveryState(states, ops, x);
    assert path in states[x].history.finished && path !in states[x + 1].files.names;
    hide Apply, Kept, IsStoreOf;
    GoneKept(states, ops, path, x, j);
  }

  // ---- such runs exist

  lemma Extend(states: seq<State>, ops: seq<Op>, op: Op) returns (longer: seq<State>, more: seq<Op>)
    requires Legal(states, ops) && Allowed(states[|ops|], op)
    ensures Legal(longer, more) && |longer| == |more| + 1 && longer[0] == states[0] && more == ops + [op]
    ensures longer[|more|] == Apply(states[|ops|], op)
  {
    hide Apply, Allowed, IsStart;
    longer, more := states + [Apply(states[|ops|], op)], ops + [op];
  }

  /** From every start, one thread can store any bytes and another can read them back. */
  lemma RoundTripRun(s: State, id: string, bytes: Bytes) returns (states: seq<State>, ops: seq<Op>)
    requires IsStart(s)
    ensures Legal(states, ops) && states[0] == s && states[|ops|].results == [(id, bytes)]
  {
    hide PathOf, IsStart;
    states, ops := OpenedRun(s, id, bytes);
    assert |states| == |ops| + 1;
    hide Legal;
    var path := states[|ops|].tasks[1].path;
    states, ops := Extend(states, ops, Measure(1));
    assert states[|ops|].tasks[1] == Reading(id, path, 0, |bytes|, []);
    states, ops := Extend(states, ops, ReadSome(1, |bytes|));
    assert bytes[..|bytes|] == bytes;
    assert states[|ops|].tasks[1] == Reading(id, path, 0, |bytes|, bytes);
    states, ops := Extend(states, ops, EndRead(1));
    assert Filled(bytes, |bytes|) == bytes;
  }

  lemma OpenedRun(s: State, id: string, bytes: Bytes) returns (states: seq<State>, ops: seq<Op>)
    requires IsStart(s)
    ensures Legal(states, ops) && states[0] == s
    ensures var t := states[|ops|];
      && t.results == [] && t.tasks.Keys == {1} && t.tasks[1].Opened? && t.tasks[1].id == id && t.tasks[1].inode == 0
      && t.files.inodes == map[0 := bytes]
  {
    hide PathOf, IsStart;
    states, ops := WrittenRun(s, id, bytes);
    assert |states| == |ops| + 1;
    hide Legal;
    states, ops := Extend(states, ops, Register(0));
    states, ops := Extend(states, ops, BeginRetrieve(1, id, ""));
    states, ops := Extend(states, ops, OpenForRead(1));
  }

  lemma WrittenRun(s: State, id: string, bytes: Bytes) returns (states: seq<State>, ops: seq<Op>)
    requires IsStart(s)
    ensures Legal(states, ops) && states[0] == s
    ensures var t := states[|ops|];
      && t.registry == map[] && t.results == [] && t.tasks.Keys == {0} && t.tasks[0].Written?
      && t.tasks[0].id == id && t.files.names == map[t.tasks[0].path := 0] && t.files.inodes == map[0 := bytes]
  {
    hide PathOf;
    states, ops := [s], [];
    assert Legal(states, ops);
    hide Legal;
    states, ops := Extend(states, ops, BeginStore(0, id, bytes));
    states, ops := Extend(states, ops, OpenForWrite(0, 0));
    states, ops := Extend(states, ops, WriteSome(0, |bytes|));
    assert [] + bytes[0..|bytes|] == bytes;
    states, ops := Extend(states, ops, CloseFile(0));
  }
}
