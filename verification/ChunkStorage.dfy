/** Chunk files of one storage node: stores, retrieves and deletes that run in pool threads
    and touch the registry under its lock and the disk without one. */
module ChunkStorage {

  import opened Basics
  import opened Text
  import opened UploadText

  type Bytes = seq<byte>

  // ---- names

  lemma NumeralHasNoUnderscore(n: int)
    ensures '_' !in PrintInt(n)
  {
    PrintIntIsToken(n);
    assert forall i | 0 <= i < |PrintInt(n)| :: IsNumeral(PrintInt(n)[i]);
  }

  /** Distinct pairs of file and chunk number have distinct storage keys, whatever the
      file names contain. */
  lemma ChunkKeyInjective(f: string, m: int, g: string, n: int)
    requires ChunkKey(f, m) == ChunkKey(g, n)
    ensures f == g && m == n
  {
    NumeralHasNoUnderscore(m);
    NumeralHasNoUnderscore(n);
    assert ChunkKey(f, m) == (f + "_chunk") + "_" + PrintInt(m);
    assert ChunkKey(g, n) == (g + "_chunk") + "_" + PrintInt(n);
    LastField('_', f + "_chunk", PrintInt(m), g + "_chunk", PrintInt(n));
    PrintIntInjective(m, n);
    assert (f + "_chunk")[..|f|] == f && (g + "_chunk")[..|g|] == g;
  }

  function PathOf(dir: string, id: string, epoch: int, number: nat): string {
    dir + "chunk_" + id + "_" + PrintInt(epoch) + "_" + (PrintInt(number) + ".dat")
  }

  /** A path determines the time and the sequence number it was made with. */
  lemma PathDeterminesStamp(dir: string, id: string, e: int, n: nat, jd: string, f: int, m: nat)
    requires PathOf(dir, id, e, n) == PathOf(dir, jd, f, m)
    ensures e == f && n == m
  {
    NumeralHasNoUnderscore(n);
    NumeralHasNoUnderscore(m);
    NumeralHasNoUnderscore(e);
    NumeralHasNoUnderscore(f);
    var x, y := PrintInt(n) + ".dat", PrintInt(m) + ".dat";
    LastField('_', dir + "chunk_" + id + "_" + PrintInt(e), x, dir + "chunk_" + jd + "_" + PrintInt(f), y);
    LastField('_', dir + "chunk_" + id, PrintInt(e), dir + "chunk_" + jd, PrintInt(f));
    assert x[..|x| - 4] == PrintInt(n) && y[..|y| - 4] == PrintInt(m);
    PrintIntInjective(n, m);
    PrintIntInjective(e, f);
  }

  // ---- the transition system

  /** One call of store: what it was asked to store, and the stamp in its path. */
  datatype Issue = Issue(id: string, bytes: Bytes, epoch: int, number: nat, life: nat)

  /** Where a pool thread is. */
  datatype Task =
    | Queued(id: string, path: string, bytes: Bytes)
    | Writing(id: string, path: string, bytes: Bytes, inode: nat, written: nat)
    | Written(id: string, path: string, bytes: Bytes)
    | Fetching(id: string, path: string)
    | Opened(id: string, path: string, inode: nat)
    | Reading(id: string, path: string, inode: nat, size: nat, got: Bytes)
    | Removing(path: string)

  /** The clock, which may be set to anything at any time; the number of this process among
      those that used the directory, and its sequence number; the latest time in any path so
      far, and the latest in a path of an earlier process. */
  datatype Time = Time(clock: int, life: nat, number: nat, latest: int, past: int)

  /** Every store call so far by its path, and the paths of those that registered. */
  datatype History = History(issued: map<string, Issue>, finished: set<string>)

  /** The file system: an open file outlives its name. `owner` remembers the path that each
      inode was created for. */
  datatype Files = Files(names: map<string, nat>, inodes: map<nat, Bytes>, owner: map<nat, string>)

  datatype State = State(
    dir: string, time: Time, history: History, files: Files,
    registry: map<string, string>, tasks: map<nat, Task>, results: seq<(string, Bytes)>)

  datatype Op =
    | Tick(now: int)
    | Restart
    | BeginStore(t: nat, id: string, bytes: Bytes)
    | OpenForWrite(t: nat, inode: nat)
    | WriteSome(t: nat, n: nat)
    | CloseFile(t: nat)
    | Register(t: nat)
    | BeginRetrieve(t: nat, id: string, fallback: string)
    | OpenForRead(t: nat)
    | Measure(t: nat)
    | ReadSome(t: nat, n: nat)
    | EndRead(t: nat)
    | BeginDelete(t: nat, id: string)
    | Remove(t: nat)
    | Fail(t: nat)

  predicate IsStoreOf(s: State, path: string, id: string) {
    path in s.history.finished && path in s.history.issued && s.history.issued[path].id == id
  }

  predicate Allowed(s: State, op: Op) {
    match op
    case Tick(_) => true
    case Restart => true
    case BeginStore(t, _, _) => t !in s.tasks && (s.time.life == 0 || s.time.clock > s.time.past)
    case OpenForWrite(t, inode) => t in s.tasks && s.tasks[t].Queued? && inode !in s.files.inodes
    case WriteSome(t, n) => t in s.tasks && s.tasks[t].Writing? && s.tasks[t].written + n <= |s.tasks[t].bytes|
    case CloseFile(t) => t in s.tasks && s.tasks[t].Writing? && s.tasks[t].written == |s.tasks[t].bytes|
    case Register(t) => t in s.tasks && s.tasks[t].Written?
    case BeginRetrieve(t, id, fallback) => t !in s.tasks && (fallback != "" ==> IsStoreOf(s, fallback, id))
    case OpenForRead(t) => t in s.tasks && s.tasks[t].Fetching?
    case Measure(t) => t in s.tasks && s.tasks[t].Opened?
    case ReadSome(t, n) =>
      && t in s.tasks && s.tasks[t].Reading? && s.tasks[t].inode in s.files.inodes
      && |s.tasks[t].got| + n <= Min(s.tasks[t].size, |s.files.inodes[s.tasks[t].inode]|)
    case EndRead(t) =>
      && t in s.tasks && s.tasks[t].Reading? && |s.tasks[t].got| <= s.tasks[t].size
      && (|s.tasks[t].got| == s.tasks[t].size ||
          (s.tasks[t].inode in s.files.inodes && |s.tasks[t].got| == |s.files.inodes[s.tasks[t].inode]|))
    case BeginDelete(t, _) => t !in s.tasks
    case Remove(t) => t in s.tasks && s.tasks[t].Removing?
    case Fail(t) => t in s.tasks
  }

  function Content(s: State, inode: nat): Bytes { if inode in s.files.inodes then s.files.inodes[inode] else [] }

  /** The buffer a retrieve returns has the measured size, zero where nothing was read. */
  function Filled(got: Bytes, size: nat): Bytes
    requires |got| <= size
  {
    got + seq(size - |got|, _ => 0)
  }

  function Apply(s: State, op: Op): State
    requires Allowed(s, op)
  {
    match op
    case Tick(now) => s.(time := s.time.(clock := now))
    case Restart =>
      s.(time := s.time.(life := s.time.life + 1, number := 0, past := s.time.latest),
        registry := map[], tasks := map[])
    case BeginStore(t, id, bytes) =>
      var path := PathOf(s.dir, id, s.time.clock, s.time.number + 1);
      var issue := Issue(id, bytes, s.time.clock, s.time.number + 1, s.time.life);
      var latest := if s.time.clock > s.time.latest then s.time.clock else s.time.latest;
      s.(time := s.time.(number := s.time.number + 1, latest := latest),
         history := s.history.(issued := s.history.issued[path := issue]),
         tasks := s.tasks[t := Queued(id, path, bytes)])
    case OpenForWrite(t, inode) =>
      var k := s.tasks[t];
      var i := if k.path in s.files.names then s.files.names[k.path] else inode;
      s.(files := Files(s.files.names[k.path := i], s.files.inodes[i := []], s.files.owner[i := k.path]),
         tasks := s.tasks[t := Writing(k.id, k.path, k.bytes, i, 0)])
    case WriteSome(t, n) =>
      var k := s.tasks[t];
      var content := Content(s, k.inode) + k.bytes[k.written..k.written + n];
      s.(files := s.files.(inodes := s.files.inodes[k.inode := content]),
         tasks := s.tasks[t := k.(written := k.written + n)])
    case CloseFile(t) =>
      var k := s.tasks[t];
      s.(tasks := s.tasks[t := Written(k.id, k.path, k.bytes)])
    case Register(t) =>
      var k := s.tasks[t];
      s.(registry := s.registry[k.id := k.path], tasks := s.tasks - {t},
         history := s.history.(finished := s.history.finished + {k.path}))
    case BeginRetrieve(t, id, fallback) =>
      if id in s.registry then s.(tasks := s.tasks[t := Fetching(id, s.registry[id])])
      else if fallback != "" && fallback in s.files.names then
        s.(registry := s.registry[id := fallback], tasks := s.tasks[t := Fetching(id, fallback)])
      else s.(results := s.results + [(id, [])])
    case OpenForRead(t) =>
      var k := s.tasks[t];
      if k.path in s.files.names then s.(tasks := s.tasks[t := Opened(k.id, k.path, s.files.names[k.path])])
      else s.(results := s.results + [(k.id, [])], tasks := s.tasks - {t})
    case Measure(t) =>
      var k := s.tasks[t];
      s.(tasks := s.tasks[t := Reading(k.id, k.path, k.inode, |Content(s, k.inode)|, [])])
    case ReadSome(t, n) =>
      var k := s.tasks[t];
      s.(tasks := s.tasks[t := k.(got := Content(s, k.inode)[..|k.got| + n])])
    case EndRead(t) =>
      var k := s.tasks[t];
      s.(results := s.results + [(k.id, Filled(k.got, k.size))], tasks := s.tasks - {t})
    case BeginDelete(t, id) =>
      if id in s.registry then
        s.(registry := s.registry - {id}, tasks := s.tasks[t := Removing(s.registry[id])])
      else s
    case Remove(t) => 
      s.(files := s.files.(names := s.files.names - {s.tasks[t].path}), tasks := s.tasks - {t})
    case Fail(t) =>
      var k := s.tasks[t];
      var answered := k.Fetching? || k.Opened? || k.Reading?;
      s.(results := if answered then s.results + [(k.id, [])] else s.results, tasks := s.tasks - {t})
  }

  // ---- what every step keeps

  ghost predicate Stamped(s: State) {
    && (forall p | p in s.history.issued ::
          var i := s.history.issued[p];
          && p == PathOf(s.dir, i.id, i.epoch, i.number) && i.life <= s.time.life && i.epoch <= s.time.latest
          && (if i.life < s.time.life then i.epoch <= s.time.past else i.number <= s.time.number))
  }

  predicate Storing(k: Task) { k.Queued? || k.Writing? || k.Written? }

  ghost predicate Pending(s: State, k: Task)
    requires Storing(k)
  {
    && k.path in s.history.issued && k.path !in s.history.finished
    && s.history.issued[k.path].id == k.id && s.history.issued[k.path].bytes == k.bytes
  }

  ghost predicate Holds(s: State, path: string, inode: nat) { inode in s.files.owner && s.files.owner[inode] == path }

  ghost predicate Sound(s: State, k: Task) {
    match k
    case Queued(_, path, _) => Pending(s, k) && forall i | i in s.files.owner :: !Holds(s, path, i)
    case Writing(_, path, bytes, inode, written) =>
      && Pending(s, k) && Holds(s, path, inode) && written <= |bytes| && Content(s, inode) == bytes[..written]
      && forall i | Holds(s, path, i) :: i == inode
    case Written(_, path, bytes) => Pending(s, k) && forall i | Holds(s, path, i) :: Content(s, i) == bytes
    case Fetching(id, path) => IsStoreOf(s, path, id)
    case Opened(id, path, inode) => IsStoreOf(s, path, id) && Holds(s, path, inode)
    case Reading(id, path, inode, size, got) =>
      && IsStoreOf(s, path, id) && Holds(s, path, inode) && size == |Content(s, inode)| && got <= Content(s, inode)
    case Removing(_) => true
  }

  ghost predicate Disk(s: State) {
    && s.files.owner.Keys == s.files.inodes.Keys && s.history.finished <= s.history.issued.Keys
    && (forall i | i in s.files.owner :: s.files.owner[i] in s.history.issued)
    && (forall p | p in s.files.names :: Holds(s, p, s.files.names[p]))
    && (forall i | i in s.files.owner && s.files.owner[i] in s.history.finished ::
      s.files.inodes[i] == s.history.issued[s.files.owner[i]].bytes)
  }

  ghost predicate Tasks(s: State) {
    && (forall t | t in s.tasks :: Sound(s, s.tasks[t]))
    && (forall t, u | t in s.tasks && u in s.tasks && t != u && Storing(s.tasks[t]) && Storing(s.tasks[u]) ::
          s.tasks[t].path != s.tasks[u].path)
  }

  /** The bytes are those of one finished store of that id. */
  ghost predicate Complete(s: State, id: string, bytes: Bytes) {
    exists p :: IsStoreOf(s, p, id) && s.history.issued[p].bytes == bytes
  }

  ghost predicate Answered(s: State) {
    forall k | 0 <= k < |s.results| :: s.results[k].1 == [] || Complete(s, s.results[k].0, s.results[k].1)
  }

  ghost predicate Consistent(s: State) {
    && Stamped(s) && Disk(s) && Tasks(s) && Answered(s)
    && (forall id | id in s.registry :: IsStoreOf(s, s.registry[id], id))
  }

  lemma PathIsFresh(s: State, id: string)
    requires Stamped(s) && (s.time.life == 0 || s.time.clock > s.time.past)
    ensures PathOf(s.dir, id, s.time.clock, s.time.number + 1) !in s.history.issued
  {
    hide PathOf;
    var p := PathOf(s.dir, id, s.time.clock, s.time.number + 1);
    if p in s.history.issued {
      var i := s.history.issued[p];
      PathDeterminesStamp(s.dir, id, s.time.clock, s.time.number + 1, i.id, i.epoch, i.number);
    }
  }

  lemma KeepsStamps(s: State, op: Op)
    requires Stamped(s) && Allowed(s, op)
    ensures Stamped(Apply(s, op))
  {
    hide PathOf;
  }

  /** Steps that write no file and finish no store leave every other thread's view alone. */
  lemma KeepsView(s: State, r: State, k: Task)
    requires Sound(s, k) && r.history == s.history
    requires r.files.inodes == s.files.inodes && r.files.owner == s.files.owner
    ensures Sound(r, k)
  {
    assert forall p, i :: Holds(r, p, i) <==> Holds(s, p, i);
  }

  lemma KeepsAnswers(s: State, r: State)
    requires Answered(s) && s.history.finished <= r.history.finished && r.results == s.results
    requires forall p | p in s.history.issued :: p in r.history.issued && r.history.issued[p] == s.history.issued[p]
    ensures Answered(r)
  {
    forall k | 0 <= k < |r.results|
      ensures r.results[k].1 == [] || Complete(r, r.results[k].0, r.results[k].1)
    {
      if Complete(s, s.results[k].0, s.results[k].1) {
        var p :| IsStoreOf(s, p, s.results[k].0) && s.history.issued[p].bytes == s.results[k].1;
        assert IsStoreOf(r, p, r.results[k].0);
      }
    }
  }

  /** A new path changes nothing for the threads already at work. */
  lemma OthersAfterIssue(s: State, r: State, k: Task)
    requires Sound(s, k) && r.files == s.files && r.history.finished == s.history.finished
    requires forall p | p in s.history.issued :: p in r.history.issued && r.history.issued[p] == s.history.issued[p]
    ensures Sound(r, k)
  {
    assert forall p, i :: Holds(r, p, i) <==> Holds(s, p, i);
  }

  lemma BeginStoreKeeps(s: State, op: Op)
    requires Consistent(s) && op.BeginStore? && Allowed(s, op)
    ensures Consistent(Apply(s, op))
  {
    hide PathOf, Stamped, Answered, Holds;
    var r := Apply(s, op);
    PathIsFresh(s, op.id);
    KeepsStamps(s, op);
    KeepsAnswers(s, r);
    assert Disk(r) by { assert forall p, i :: Holds(r, p, i) <==> Holds(s, p, i) by { SameOwners(s, r); } }
    forall t | t in r.tasks ensures Sound(r, r.tasks[t]) {
      if t != op.t { OthersAfterIssue(s, r, s.tasks[t]); } else { SameOwners(s, r); NoOwnerYet(s, r.tasks[t].path); }
    }
    assert forall t | t in s.tasks && Storing(s.tasks[t]) :: Sound(s, s.tasks[t]);
  }

  lemma SameOwners(s: State, r: State)
    requires r.files.owner == s.files.owner
    ensures forall p, i :: Holds(r, p, i) <==> Holds(s, p, i)
  {}

  lemma NoOwnerYet(s: State, path: string)
    requires Disk(s) && path !in s.history.issued
    ensures forall i | i in s.files.owner :: !Holds(s, path, i)
  {}

  /** Another thread's file is not the one being created or written. */
  lemma OthersAfterWrite(s: State, r: State, k: Task, path: string, inode: nat)
    requires Sound(s, k) && r.history == s.history && path !in s.history.finished
    requires Storing(k) ==> k.path != path
    requires forall i | i != inode :: (i in r.files.owner <==> i in s.files.owner) && Content(r, i) == Content(s, i)
    requires forall i | i in s.files.owner && i != inode :: r.files.owner[i] == s.files.owner[i]
    requires Holds(r, path, inode) && (inode in s.files.owner ==> Holds(s, path, inode))
    ensures Sound(r, k)
  {
    assert forall p, i :: Holds(r, p, i) <==> Holds(s, p, i) || (p == path && i == inode);
  }

  /** No file of that name can exist, so opening creates one and truncates none. */
  lemma OpenForWriteCreates(s: State, op: Op)
    requires Consistent(s) && op.OpenForWrite? && Allowed(s, op)
    ensures var r, k := Apply(s, op), s.tasks[op.t];
      && k.path in s.history.issued && k.path !in s.history.finished
      && r.history == s.history && r.registry == s.registry && r.results == s.results
      && r.files == Files(s.files.names[k.path := op.inode], s.files.inodes[op.inode := []],
                          s.files.owner[op.inode := k.path])
      && r.tasks == s.tasks[op.t := Writing(k.id, k.path, k.bytes, op.inode, 0)]
  {
    hide PathOf, Stamped, Answered, Content;
    assert Sound(s, s.tasks[op.t]);
    assert s.tasks[op.t].path !in s.files.names;
  }

  lemma OpenForWriteKeeps(s: State, op: Op)
    requires Consistent(s) && op.OpenForWrite? && Allowed(s, op)
    ensures Consistent(Apply(s, op))
  {
    hide Apply, Stamped, Answered;
    var r, k := Apply(s, op), s.tasks[op.t];
    OpenForWriteCreates(s, op);
    assert Sound(s, k);
    KeepsStamps(s, op);
    KeepsAnswers(s, r);
    forall t | t in r.tasks ensures Sound(r, r.tasks[t]) {
      if t != op.t {
        OthersAfterWrite(s, r, s.tasks[t], k.path, op.inode);
      } else {
        assert forall i | Holds(r, k.path, i) :: i == op.inode || Holds(s, k.path, i);
      }
    }
  }

  lemma WriteSomeKeeps(s: State, op: Op)
    requires Consistent(s) && op.WriteSome? && Allowed(s, op)
    ensures Consistent(Apply(s, op))
  {
    hide PathOf, Stamped, Answered;
    var r, k := Apply(s, op), s.tasks[op.t];
    assert Sound(s, k);
    KeepsStamps(s, op);
    KeepsAnswers(s, r);
    assert k.bytes[..k.written] + k.bytes[k.written..k.written + op.n] == k.bytes[..k.written + op.n];
    forall t | t in r.tasks ensures Sound(r, r.tasks[t]) {
      if t != op.t {
        OthersAfterWrite(s, r, s.tasks[t], k.path, k.inode);
      } else {
        assert forall i | Holds(r, k.path, i) :: Holds(s, k.path, i);
      }
    }
  }

  lemma RegisterKeeps(s: State, op: Op)
    requires Consistent(s) && op.Register? && Allowed(s, op)
    ensures Consistent(Apply(s, op))
  {
    hide PathOf, Stamped;
    var r, k := Apply(s, op), s.tasks[op.t];
    assert Sound(s, k);
    KeepsStamps(s, op);
    KeepsAnswers(s, r);
    assert forall p, i :: Holds(r, p, i) <==> Holds(s, p, i);
    forall i | i in r.files.owner && r.files.owner[i] in r.history.finished
      ensures r.files.inodes[i] == r.history.issued[r.files.owner[i]].bytes
    {
      assert Holds(s, s.files.owner[i], i);
    }
    forall t | t in r.tasks ensures Sound(r, r.tasks[t]) { assert Sound(s, s.tasks[t]); }
  }

  /** What a finished read returns. */
  lemma ReadIsComplete(s: State, op: Op)
    requires Consistent(s) && op.EndRead? && Allowed(s, op)
    ensures var k := s.tasks[op.t];
      && k.path in s.history.issued && Filled(k.got, k.size) == s.history.issued[k.path].bytes
      && Complete(s, k.id, Filled(k.got, k.size))
  {
    var k := s.tasks[op.t];
    assert Sound(s, k);
    assert |k.got| == k.size && Filled(k.got, k.size) == k.got;
    assert k.got == Content(s, k.inode) == s.history.issued[k.path].bytes;
  }

  predicate Quiet(op: Op) { !op.BeginStore? && !op.OpenForWrite? && !op.WriteSome? && !op.Register? }

  lemma QuietDisk(s: State, op: Op)
    requires Quiet(op) && Allowed(s, op)
    ensures var r := Apply(s, op);
      && r.history == s.history && r.files.inodes == s.files.inodes && r.files.owner == s.files.owner
      && (forall p | p in r.files.names :: p in s.files.names && r.files.names[p] == s.files.names[p])
  {
    hide PathOf, Filled, Content, IsStoreOf;
  }

  lemma QuietRegistry(s: State, op: Op, id: string)
    requires Quiet(op) && Allowed(s, op) && id in Apply(s, op).registry
    ensures var p := Apply(s, op).registry[id];
      (id in s.registry && s.registry[id] == p) || IsStoreOf(s, p, id)
  {
    hide PathOf, Filled, Content;
  }

  lemma QuietStoring(s: State, op: Op, t: nat)
    requires Quiet(op) && Allowed(s, op) && t in Apply(s, op).tasks && Storing(Apply(s, op).tasks[t])
    ensures t in s.tasks && Storing(s.tasks[t]) && s.tasks[t].path == Apply(s, op).tasks[t].path
  {
    hide PathOf, Filled, Content, IsStoreOf;
  }

  lemma QuietKeeps(s: State, op: Op)
    requires Consistent(s) && Quiet(op) && Allowed(s, op)
    ensures Consistent(Apply(s, op))
  {
    hide Apply, Allowed, Stamped, Tasks, Answered;
    var r := Apply(s, op);
    QuietDisk(s, op);
    KeepsStamps(s, op);
    assert forall p, i :: Holds(r, p, i) <==> Holds(s, p, i);
    forall id | id in r.registry ensures IsStoreOf(r, r.registry[id], id) { QuietRegistry(s, op, id); }
    QuietTasks(s, op);
    QuietAnswers(s, op);
  }

  lemma QuietAnswers(s: State, op: Op)
    requires Consistent(s) && Quiet(op) && Allowed(s, op)
    ensures Answered(Apply(s, op))
  {
    hide PathOf, Stamped, Sound, Disk, Complete, Filled;
    var r := Apply(s, op);
    QuietDisk(s, op);
    assert forall id, b :: Complete(r, id, b) <==> Complete(s, id, b) by {
      forall id, b ensures Complete(r, id, b) <==> Complete(s, id, b) { SameStores(s, r, id, b); }
    }
    if op.EndRead? { ReadIsComplete(s, op); }
  }

  lemma SameStores(s: State, r: State, id: string, bytes: Bytes)
    requires r.history == s.history
    ensures Complete(r, id, bytes) <==> Complete(s, id, bytes)
  {
    assert forall p :: IsStoreOf(r, p, id) <==> IsStoreOf(s, p, id);
  }

  lemma QuietTasks(s: State, op: Op)
    requires Consistent(s) && Quiet(op) && Allowed(s, op)
    ensures Tasks(Apply(s, op))
  {
    hide Apply, Allowed, Stamped, Answered, Disk, Sound;
    var r := Apply(s, op);
    QuietDisk(s, op);
    forall t | t in r.tasks && Storing(r.tasks[t])
      ensures t in s.tasks && Storing(s.tasks[t]) && s.tasks[t].path == r.tasks[t].path
    {
      QuietStoring(s, op, t);
    }
    forall t | t in r.tasks ensures Sound(r, r.tasks[t]) {
      if t in s.tasks && r.tasks[t] == s.tasks[t] {
        KeepsView(s, r, s.tasks[t]);
      } else {
        NewStage(s, op, t);
        KeepsView(s, r, r.tasks[t]);
      }
    }
  }

  /** A thread's next stage is sound already before the step that reaches it. */
  lemma NewStage(s: State, op: Op, t: nat)
    requires Consistent(s) && Quiet(op) && Allowed(s, op)
    requires t in Apply(s, op).tasks && (t !in s.tasks || Apply(s, op).tasks[t] != s.tasks[t])
    ensures Sound(s, Apply(s, op).tasks[t])
  {
    hide PathOf, Stamped, Answered, Sound, Filled, Disk, Storing;
    if op.CloseFile? { CloseIsSound(s, s.tasks[t]); }
    else if op.OpenForRead? { OpenIsSound(s, s.tasks[t]); }
    else if op.Measure? { ReadIsSound(s, s.tasks[t], 0); }
    else if op.ReadSome? { ReadIsSound(s, s.tasks[t], op.n); }
    else if op.BeginRetrieve? { FetchIsSound(s, op.id, Apply(s, op).tasks[t].path); }
    else { RemovingIsSound(s, Apply(s, op).tasks[t].path); }
  }

  lemma CloseIsSound(s: State, k: Task)
    requires k.Writing? && k.written == |k.bytes| && Sound(s, k)
    ensures Sound(s, Written(k.id, k.path, k.bytes))
  {}

  lemma OpenIsSound(s: State, k: Task)
    requires k.Fetching? && Sound(s, k) && Disk(s)
    ensures k.path in s.files.names ==> Sound(s, Opened(k.id, k.path, s.files.names[k.path]))
  {}

  lemma ReadIsSound(s: State, k: Task, n: nat)
    requires Sound(s, k)
    ensures k.Opened? ==> Sound(s, Reading(k.id, k.path, k.inode, |Content(s, k.inode)|, []))
    ensures k.Reading? && |k.got| + n <= |Content(s, k.inode)| ==>
      Sound(s, k.(got := Content(s, k.inode)[..|k.got| + n]))
  {}

  lemma FetchIsSound(s: State, id: string, path: string)
    requires IsStoreOf(s, path, id)
    ensures Sound(s, Fetching(id, path))
  {}

  lemma RemovingIsSound(s: State, path: string)
    ensures Sound(s, Removing(path))
  {}

  lemma StepKeeps(s: State, op: Op)
    requires Consistent(s) && Allowed(s, op)
    ensures Consistent(Apply(s, op))
  {
    hide Consistent, Apply, Allowed;
    if op.BeginStore? { BeginStoreKeeps(s, op); }
    else if op.OpenForWrite? { OpenForWriteKeeps(s, op); }
    else if op.WriteSome? { WriteSomeKeeps(s, op); }
    else if op.Register? { RegisterKeeps(s, op); }
    else { QuietKeeps(s, op); }
  }

  // ---- every run

  /** A sequence of states in which every step is allowed. */
  ghost predicate IsRun(states: seq<State>, ops: seq<Op>) {
    && |states| == |ops| + 1
    && forall i | 0 <= i < |ops| :: Allowed(states[i], ops[i]) && states[i + 1] == Apply(states[i], ops[i])
  }

  predicate IsStart(s: State) {
    && s.time.life == 0 && s.history == History(map[], {}) && s.files == Files(map[], map[], map[])
    && s.registry == map[] && s.tasks == map[] && s.results == []
  }

  /** Whatever the interleaving of stores, retrieves, deletes, failures and restarts, every
      retrieve answers with nothing or with all the bytes of one finished store of its id. */
  lemma {:induction false} EveryRetrieveIsWhole(states: seq<State>, ops: seq<Op>, k: nat)
    requires IsRun(states, ops) && IsStart(states[0]) && k < |states|
    ensures Consistent(states[k]) && Answered(states[k])
  {
    hide Apply, Allowed, Sound;
    if k > 0 {
      EveryRetrieveIsWhole(states, ops, k - 1);
      StepKeeps(states[k - 1], ops[k - 1]);
    }
  }
}
