/** The in-process ZooKeeper: a flat map from absolute paths to nodes, in which every node
    also keeps the set of its children's names. */
module ZkStore {

  import opened Lex
  import opened Text

  datatype Node = Node(data: string, ephemeral: bool, version: int, children: set<string>)
  type Nodes = map<string, Node>

  datatype Reply = Ok | NodeExists | NoNode | InvalidState

  // ---- paths

  predicate NotSlash(c: char) { c != '/' }

  predicate Rooted(p: string) { p != "" && p[0] == '/' }

  /** A path as the store keeps it: absolute, and without a slash at the end. */
  predicate Normal(p: string) { Rooted(p) && (p == "/" || p[|p| - 1] != '/') }

  function LastSlash(p: string): (i: int)
    ensures -1 <= i < |p| && (i >= 0 ==> p[i] == '/') && (forall j | i < j < |p| :: p[j] != '/')
  {
    if p == "" then -1 else if p[|p| - 1] == '/' then |p| - 1 else LastSlash(p[..|p| - 1])
  }

  function Stripped(p: string): string {
    if |p| > 1 && p[|p| - 1] == '/' then Stripped(p[..|p| - 1]) else p
  }

  function Absolute(raw: string): string { if Rooted(raw) then raw else "/" + raw }

  function Normalize(raw: string): string { Stripped(Absolute(raw)) }

  lemma {:induction false} StrippedIsNormal(p: string)
    requires Rooted(p)
    ensures Normal(Stripped(p))
  {
    if |p| > 1 && p[|p| - 1] == '/' { StrippedIsNormal(p[..|p| - 1]); }
  }

  /** Normal paths are exactly the fixed points; other paths lose the slashes at their end. */
  lemma NormalizeIsNormal(raw: string)
    ensures Normal(Normalize(raw)) && (Normal(raw) <==> Normalize(raw) == raw)
    ensures Normalize(raw) <= Absolute(raw)
    ensures forall i | |Normalize(raw)| <= i < |Absolute(raw)| :: Absolute(raw)[i] == '/'
  {
    StrippedIsNormal(Absolute(raw));
    StrippedIsPrefix(Absolute(raw));
  }

  lemma {:induction false} StrippedIsPrefix(p: string)
    ensures Stripped(p) <= p && forall i | |Stripped(p)| <= i < |p| :: p[i] == '/'
  {
    if |p| > 1 && p[|p| - 1] == '/' { StrippedIsPrefix(p[..|p| - 1]); }
  }

  method NormalizePath(raw: string) returns (path: string)
    ensures path == Normalize(raw)
  {
    if raw == "" { return "/"; }
    path := raw;
    if path[0] != '/' { path := "/" + path; }
    while |path| > 1 && path[|path| - 1] == '/'
      invariant Rooted(path) && Stripped(path) == Normalize(raw)
      decreases |path|
    {
      path := path[..|path| - 1];
    }
  }

  function Parent(p: string): string {
    var i := LastSlash(p);
    if p == "/" then "" else if i == 0 then "/" else if i < 0 then p else p[..i]
  }

  function Child(p: string): string { if p == "/" then "/" else p[LastSlash(p) + 1..] }

  predicate IsName(c: string) { c != "" && All(NotSlash, c) }

  function Join(n: string, c: string): string { (if n == "/" then "" else n) + "/" + c }

  /** A single name after two slashes: it is taken for a child of the root. */
  predicate DoubleRoot(p: string) { |p| > 2 && p[0] == p[1] == '/' && forall i | 2 <= i < |p| :: p[i] != '/' }

  lemma JoinParts(n: string, c: string)
    requires Normal(n) && IsName(c)
    ensures Normal(Join(n, c)) && Join(n, c) != "/" && Parent(Join(n, c)) == n && Child(Join(n, c)) == c
  {
    var p, k := Join(n, c), if n == "/" then 0 else |n|;
    assert p[k] == '/' && p[k + 1..] == c;
    assert forall j | k < j < |p| :: p[j] == c[j - k - 1];
    assert LastSlash(p) == k;
    assert p[..k] == if n == "/" then "" else n;
    assert p[|p| - 1] == c[|c| - 1];
  }

  /** Splitting a path and joining the pieces gives it back unless it is a doubled root. */
  lemma PartsJoin(p: string)
    requires Normal(p)
    ensures Parent(p) == "" <==> p == "/"
    ensures p != "/" ==> IsName(Child(p)) && |Parent(p)| < |p|
    ensures p != "/" && Join(Parent(p), Child(p)) == p <==> p != "/" && !DoubleRoot(p)
    ensures DoubleRoot(p) ==> p != "/"
  {
    var k := LastSlash(p);
    assert k >= 0;
    if p != "/" {
      var c := p[k + 1..];
      assert forall j | 0 <= j < |c| :: c[j] == p[k + 1 + j];
      assert p == p[..k] + "/" + c;
      if k == 1 {
        assert p[..1] == "/";
      }
    }
  }

  // ---- the store

  /** A stored path is normal, below a stored parent, and named by its last component. */
  predicate Placed(nodes: Nodes, k: string) {
    Normal(k) && (k != "/" ==> Parent(k) in nodes && Join(Parent(k), Child(k)) == k)
  }

  /** A name is listed by a node exactly when it is stored directly below it. */
  predicate Indexed(nodes: Nodes, n: string, c: string)
    requires n in nodes
  {
    c in nodes[n].children <==> IsName(c) && Join(n, c) in nodes
  }

  ghost predicate Tree(nodes: Nodes) {
    && (forall k {:trigger Placed(nodes, k)} | k in nodes :: Placed(nodes, k))
    && (forall n, c {:trigger Indexed(nodes, n, c)} | n in nodes :: Indexed(nodes, n, c))
  }

  const INITIAL: Nodes := map["/" := Node("", false, 0, {})]

  lemma InitialIsTree()
    ensures Tree(INITIAL)
  {
    forall c ensures Indexed(INITIAL, "/", c) {}
  }

  function Zeros(n: nat): string { seq(n, _ => '0') }

  /** A counter printed with at least ten digits. */
  function Padded(n: nat): string { Zeros(if |PrintNat(n)| < 10 then 10 - |PrintNat(n)| else 0) + PrintNat(n) }

  function Numbered(path: string, n: nat): string { path + "_" + Padded(n) }

  function Listed(nodes: Nodes, parent: string, name: string): Nodes
    requires parent in nodes
  {
    nodes[parent := nodes[parent].(children := nodes[parent].children + {name})]
  }

  function CreateReply(nodes: Nodes, actual: string): Reply {
    if actual in nodes then NodeExists
    else if Parent(actual) != "" && Parent(actual) !in nodes then NoNode
    else Ok
  }

  function Created(nodes: Nodes, actual: string, data: string, ephemeral: bool): Nodes {
    var more := nodes[actual := Node(data, ephemeral, 0, {})];
    if CreateReply(nodes, actual) != Ok then nodes
    else if Parent(actual) == "" then more
    else Listed(more, Parent(actual), Child(actual))
  }

  function DeleteReply(nodes: Nodes, path: string): Reply {
    if path !in nodes then NoNode else if nodes[path].children != {} then InvalidState else Ok
  }

  /** The map's subscript operator creates a missing entry. */
  function At(nodes: Nodes, path: string): Node {
    if path in nodes then nodes[path] else Node("", false, 0, {})
  }

  function Unlisted(nodes: Nodes, parent: string, name: string): Nodes {
    nodes[parent := At(nodes, parent).(children := At(nodes, parent).children - {name})]
  }

  function Deleted(nodes: Nodes, path: string): Nodes {
    if DeleteReply(nodes, path) != Ok then nodes
    else (if Parent(path) == "" then nodes else Unlisted(nodes, Parent(path), Child(path))) - {path}
  }

  function Changed(nodes: Nodes, path: string, data: string): Nodes {
    if path !in nodes then nodes
    else nodes[path := nodes[path].(data := data, version := nodes[path].version + 1)]
  }

  // ---- the tree is kept

  /** A successful create keeps the tree exactly when the path is not a doubled root. */
  lemma CreateKeepsTree(nodes: Nodes, actual: string, data: string, ephemeral: bool)
    requires Tree(nodes) && Normal(actual) && CreateReply(nodes, actual) == Ok
    ensures Tree(Created(nodes, actual, data, ephemeral)) <==> !DoubleRoot(actual)
  {
    hide Normal, Parent, Child, Join, IsName, DoubleRoot, Indexed;
    var after := Created(nodes, actual, data, ephemeral);
    PartsJoin(actual);
    assert actual in after;
    if DoubleRoot(actual) {
      assert !Placed(after, actual);
    } else {
      forall n, c | n in after ensures Indexed(after, n, c) {
        CreateKeepsIndex(nodes, actual, data, ephemeral, n, c);
      }
      forall k | k in after ensures Placed(after, k) {
        if k != actual { assert Placed(nodes, k); }
      }
    }
  }

  lemma CreateKeepsIndex(nodes: Nodes, actual: string, data: string, ephemeral: bool, n: string, c: string)
    requires Tree(nodes) && Normal(actual) && CreateReply(nodes, actual) == Ok && !DoubleRoot(actual)
    requires n in Created(nodes, actual, data, ephemeral)
    ensures Indexed(Created(nodes, actual, data, ephemeral), n, c)
  {
    hide Normal, Parent, Child, Join, IsName, DoubleRoot;
    PartsJoin(actual);
    if n != actual { assert Placed(nodes, n) && Indexed(nodes, n, c); }
    if IsName(c) {
      JoinParts(n, c);
      assert Join(n, c) in nodes ==> Placed(nodes, Join(n, c));
    }
  }

  lemma DeleteKeepsTree(nodes: Nodes, path: string)
    requires Tree(nodes) && Normal(path)
    ensures Tree(Deleted(nodes, path))
  {
    hide Normal, Parent, Child, Join, IsName, Indexed;
    if DeleteReply(nodes, path) == Ok {
      var after := Deleted(nodes, path);
      PartsJoin(path);
      assert Placed(nodes, path);
      forall k | k in after ensures Placed(after, k) {
        assert Placed(nodes, k);
        PartsJoin(k);
        if k != "/" { ListedByParent(nodes, k); }
      }
      forall n, c | n in after ensures Indexed(after, n, c) {
        DeleteKeepsIndex(nodes, path, n, c);
      }
    }
  }

  lemma ListedByParent(nodes: Nodes, k: string)
    requires Tree(nodes) && k in nodes && k != "/"
    ensures Parent(k) in nodes && Child(k) in nodes[Parent(k)].children
  {
    hide Normal, Parent, Child, Join, IsName;
    assert Placed(nodes, k);
    PartsJoin(k);
    assert Indexed(nodes, Parent(k), Child(k));
  }

  lemma DeleteKeepsIndex(nodes: Nodes, path: string, n: string, c: string)
    requires Tree(nodes) && DeleteReply(nodes, path) == Ok && n in Deleted(nodes, path)
    ensures Indexed(Deleted(nodes, path), n, c)
  {
    hide Normal, Parent, Child, Join, IsName;
    assert Placed(nodes, path) && (path != "/" ==> Parent(path) in nodes);
    PartsJoin(path);
    assert n in nodes;
    assert Placed(nodes, n) && Indexed(nodes, n, c);
    if IsName(c) { JoinParts(n, c); }
  }

  lemma ChangeKeepsTree(nodes: Nodes, path: string, data: string)
    requires Tree(nodes)
    ensures Tree(Changed(nodes, path, data))
  {
    hide Normal, Parent, Child, Join, IsName;
    var after := Changed(nodes, path, data);
    forall k | k in after ensures Placed(after, k) { assert Placed(nodes, k); }
    forall n, c | n in after ensures Indexed(after, n, c) { assert Indexed(nodes, n, c); }
  }

  // ---- the reference: a plain map without an index

  predicate Under(p: string, k: string) { k != p && Join(p, "") <= k }

  lemma NameIsUnder(p: string, c: string)
    requires c != "" && p != ""
    ensures Under(p, Join(p, c))
  {
    assert Join(p, c) == Join(p, "") + c;
  }

  /** Below a node, the parent is either that node or still below it. */
  lemma ParentIsUnder(p: string, k: string)
    requires Normal(p) && Normal(k) && Under(p, k)
    ensures k != "/" && (Parent(k) == p || Under(p, Parent(k)))
  {
    var q, i := Join(p, ""), LastSlash(k);
    var j := |q| - 1;
    assert q[j] == '/' && q[..j] == (if p == "/" then "" else p) && k[..j] == q[..j];
    assert k[j] == q[j];
    assert j <= i;
    if i == j {
      assert Parent(k) == p;
    } else {
      assert Parent(k) == k[..i];
      assert k[..i][..|q|] == k[..|q|] == q;
    }
  }

  /** Somewhere on the way up from a descendant there is a child. */
  lemma {:induction false} ChildOnTheWay(nodes: Nodes, p: string, k: string) returns (c: string)
    requires Tree(nodes) && p in nodes && k in nodes && Under(p, k)
    ensures c in nodes[p].children
    decreases |k|
  {
    hide Normal, Parent, Child, Join, IsName, Under;
    assert Placed(nodes, k) && Placed(nodes, p);
    PartsJoin(k);
    ParentIsUnder(p, k);
    ListedByParent(nodes, k);
    if Parent(k) == p { c := Child(k); } else { c := ChildOnTheWay(nodes, p, Parent(k)); }
  }

  /** The children index of a stored node is empty exactly when nothing is stored below it
      at any depth. */
  lemma ChildlessIffLeaf(nodes: Nodes, p: string)
    requires Tree(nodes) && p in nodes
    ensures nodes[p].children == {} <==> forall k | k in nodes :: !Under(p, k)
  {
    hide Parent, Child, Join, Under;
    if k :| k in nodes && Under(p, k) { var c := ChildOnTheWay(nodes, p, k); }
    if c :| c in nodes[p].children {
      assert Indexed(nodes, p, c) && Placed(nodes, p);
      NameIsUnder(p, c);
    }
  }

  /** What a path stores, without the children. */
  datatype Entry = Entry(data: string, ephemeral: bool, version: int)
  type Plain = map<string, Entry>

  function PlainOf(nodes: Nodes): Plain {
    map p | p in nodes :: Entry(nodes[p].data, nodes[p].ephemeral, nodes[p].version)
  }

  function PlainCreate(plain: Plain, p: string, data: string, ephemeral: bool): (Plain, Reply) {
    if p in plain then (plain, NodeExists)
    else if p != "/" && Parent(p) !in plain then (plain, NoNode)
    else (plain[p := Entry(data, ephemeral, 0)], Ok)
  }

  function PlainDelete(plain: Plain, p: string): (Plain, Reply) {
    if p !in plain then (plain, NoNode)
    else if exists k | k in plain :: Under(p, k) then (plain, InvalidState)
    else (plain - {p}, Ok)
  }

  function PlainSet(plain: Plain, p: string, data: string): (Plain, Reply) {
    if p !in plain then (plain, NoNode)
    else (plain[p := plain[p].(data := data, version := plain[p].version + 1)], Ok)
  }

  // ---- every run

  datatype Op =
    | Create(path: string, data: string, ephemeral: bool)
    | CreateSequential(path: string, data: string, ephemeral: bool)
    | Delete(path: string)
    | Set(path: string, data: string)

  datatype State = State(nodes: Nodes, counters: map<string, nat>)

  function Counter(s: State, path: string): nat { if path in s.counters then s.counters[path] else 0 }

  function Actual(s: State, op: Op): string {
    var p := Normalize(op.path);
    if op.CreateSequential? then Numbered(p, Counter(s, p) + 1) else p
  }

  lemma ActualIsNormal(s: State, op: Op)
    ensures Normal(Actual(s, op))
  {
    NormalizeIsNormal(op.path);
    var n := Counter(s, Normalize(op.path)) + 1;
    if op.CreateSequential? {
      DigitsOnly(n);
      assert Actual(s, op)[|Actual(s, op)| - 1] == Padded(n)[|Padded(n)| - 1];
    }
  }

  lemma DigitsOnly(n: nat)
    ensures Padded(n) != "" && All(IsDigit, Padded(n))
  {
    PrintNatRoundTrip(n);
  }

  function Step(s: State, op: Op): (State, Reply) {
    var p, a := Normalize(op.path), Actual(s, op);
    match op
    case Create(_, data, ephemeral) =>
      (s.(nodes := Created(s.nodes, a, data, ephemeral)), CreateReply(s.nodes, a))
    case CreateSequential(_, data, ephemeral) =>
      (State(Created(s.nodes, a, data, ephemeral), s.counters[p := Counter(s, p) + 1]), CreateReply(s.nodes, a))
    case Delete(_) => (s.(nodes := Deleted(s.nodes, p)), DeleteReply(s.nodes, p))
    case Set(_, data) => (s.(nodes := Changed(s.nodes, p, data)), if p in s.nodes then Ok else NoNode)
  }

  /** The reply and the contents that a plain map would give. */
  function PlainStep(plain: Plain, op: Op, actual: string): (Plain, Reply) {
    match op
    case Create(_, data, ephemeral) => PlainCreate(plain, actual, data, ephemeral)
    case CreateSequential(_, data, ephemeral) => PlainCreate(plain, actual, data, ephemeral)
    case Delete(_) => PlainDelete(plain, actual)
    case Set(_, data) => PlainSet(plain, actual, data)
  }

  /** What a caller has to check: no create on a doubled root. */
  predicate Separate(op: Op) { op.Create? || op.CreateSequential? ==> !DoubleRoot(Normalize(op.path)) }

  lemma SuffixKeepsRoot(p: string, t: string)
    requires Normal(p) && All(NotSlash, t)
    ensures DoubleRoot(p + t) <==> DoubleRoot(p)
  {
    var q := p + t;
    assert forall i | 0 <= i < |p| :: q[i] == p[i];
    assert forall i | |p| <= i < |q| :: q[i] == t[i - |p|] && q[i] != '/';
    assert |p| == 2 ==> p[1] != '/';
  }

  lemma NumberingKeepsRoot(s: State, op: Op)
    ensures DoubleRoot(Actual(s, op)) <==> DoubleRoot(Normalize(op.path))
  {
    hide DoubleRoot, Normal, Normalize, Padded;
    NormalizeIsNormal(op.path);
    if op.CreateSequential? {
      var p, n := Normalize(op.path), Counter(s, Normalize(op.path)) + 1;
      DigitsOnly(n);
      SuffixKeepsRoot(p, "_" + Padded(n));
      assert Numbered(p, n) == p + ("_" + Padded(n));
    }
  }

  /** One operation keeps the tree and answers as the plain map does. */
  lemma StepRefinesPlain(s: State, op: Op)
    requires Tree(s.nodes) && Separate(op)
    ensures Tree(Step(s, op).0.nodes)
    ensures (PlainOf(Step(s, op).0.nodes), Step(s, op).1) == PlainStep(PlainOf(s.nodes), op, Actual(s, op))
  {
    hide Tree, Actual, DoubleRoot, Created, Deleted, CreateReply, DeleteReply, Changed, PlainOf, PlainCreate,
      PlainDelete, PlainSet;
    ActualIsNormal(s, op);
    NumberingKeepsRoot(s, op);
    assert op.Delete? || op.Set? ==> Actual(s, op) == Normalize(op.path) by {
      if !op.CreateSequential? { PathActed(s, op); }
    }
    var a := Actual(s, op);
    match op
    case Create(_, data, ephemeral) => CreateIsPlain(s.nodes, a, data, ephemeral);
    case CreateSequential(_, data, ephemeral) => CreateIsPlain(s.nodes, a, data, ephemeral);
    case Delete(_) => DeleteIsPlain(s.nodes, a);
    case Set(_, data) => ChangeIsPlain(s.nodes, a, data);
  }

  lemma PathActed(s: State, op: Op)
    requires !op.CreateSequential?
    ensures Actual(s, op) == Normalize(op.path)
  {}

  lemma CreateIsPlain(nodes: Nodes, a: string, data: string, ephemeral: bool)
    requires Tree(nodes) && Normal(a) && !DoubleRoot(a)
    ensures Tree(Created(nodes, a, data, ephemeral))
    ensures (PlainOf(Created(nodes, a, data, ephemeral)), CreateReply(nodes, a)) ==
      PlainCreate(PlainOf(nodes), a, data, ephemeral)
  {
    hide Tree, Normal, Parent, Child, DoubleRoot;
    if CreateReply(nodes, a) == Ok {
      CreateKeepsTree(nodes, a, data, ephemeral);
      assert PlainOf(Created(nodes, a, data, ephemeral)) == PlainOf(nodes)[a := Entry(data, ephemeral, 0)];
    }
    PartsJoin(a);
  }

  lemma DeleteIsPlain(nodes: Nodes, a: string)
    requires Tree(nodes) && Normal(a)
    ensures Tree(Deleted(nodes, a))
    ensures (PlainOf(Deleted(nodes, a)), DeleteReply(nodes, a)) == PlainDelete(PlainOf(nodes), a)
  {
    hide Normal, Parent, Child, Join, Under, Tree;
    DeleteKeepsTree(nodes, a);
    if a in nodes {
      ChildlessIffLeaf(nodes, a);
      PartsJoin(a);
      if a != "/" { ListedByParent(nodes, a); }
      if DeleteReply(nodes, a) == Ok { assert PlainOf(Deleted(nodes, a)) == PlainOf(nodes) - {a}; }
    }
  }

  lemma ChangeIsPlain(nodes: Nodes, a: string, data: string)
    requires Tree(nodes)
    ensures Tree(Changed(nodes, a, data))
    ensures (PlainOf(Changed(nodes, a, data)), if a in nodes then Ok else NoNode) == PlainSet(PlainOf(nodes), a, data)
  {
    hide Tree;
    ChangeKeepsTree(nodes, a, data);
    if a in nodes {
      var e := PlainOf(nodes)[a];
      assert PlainOf(Changed(nodes, a, data)) == PlainOf(nodes)[a := e.(data := data, version := e.version + 1)];
    }
  }

  function Run(s: State, ops: seq<Op>): State
    decreases |ops|
  {
    if ops == [] then s else Run(Step(s, ops[0]).0, ops[1..])
  }

  function Replies(s: State, ops: seq<Op>): seq<Reply>
    decreases |ops|
  {
    if ops == [] then [] else [Step(s, ops[0]).1] + Replies(Step(s, ops[0]).0, ops[1..])
  }

  /** The paths that the operations act on, with sequence numbers filled in. */
  function Targets(s: State, ops: seq<Op>): (ps: seq<string>)
    ensures |ps| == |ops|
    decreases |ops|
  {
    if ops == [] then []
    else
      [Actual(s, ops[0])] + Targets(Step(s, ops[0]).0, ops[1..])
  }

  function PlainRun(plain: Plain, ops: seq<Op>, targets: seq<string>): (Plain, seq<Reply>)
    requires |ops| == |targets|
    decreases |ops|
  {
    if ops == [] then (plain, [])
    else
      var (next, reply) := PlainStep(plain, ops[0], targets[0]);
      var (last, replies) := PlainRun(next, ops[1..], targets[1..]);
      (last, [reply] + replies)
  }

  /** Over every run that never creates a doubled root, the store stays a tree, and
      its contents and every reply are those of a plain map from paths to data and versions. */
  lemma {:induction false} RunRefinesPlain(s: State, ops: seq<Op>)
    requires Tree(s.nodes) && forall i | 0 <= i < |ops| :: Separate(ops[i])
    ensures Tree(Run(s, ops).nodes)
    ensures (PlainOf(Run(s, ops).nodes), Replies(s, ops)) == PlainRun(PlainOf(s.nodes), ops, Targets(s, ops))
    decreases |ops|
  {
    hide Tree, Step, PlainStep, PlainOf, Separate;
    if ops != [] {
      StepRefinesPlain(s, ops[0]);
      RunRefinesPlain(Step(s, ops[0]).0, ops[1..]);
      assert Targets(s, ops)[1..] == Targets(Step(s, ops[0]).0, ops[1..]);
    }
  }

  lemma RootPaths()
    ensures Normalize("/b") == "/b" && Normalize("//b") == "//b"
    ensures Parent("/b") == "/" && Child("/b") == "b" && Parent("//b") == "/" && Child("//b") == "b"
    ensures Join("/", "b") == "/b" && IsName("b")
  {
    assert LastSlash("/b"[..1]) == 0 && LastSlash("//b"[..2]) == 1;
  }

  /** So it is from the start of the program on. */
  lemma EveryRunIsTree(ops: seq<Op>)
    requires forall i | 0 <= i < |ops| :: Separate(ops[i])
    ensures var s := State(INITIAL, map[]);
      && Tree(Run(s, ops).nodes)
      && (PlainOf(Run(s, ops).nodes), Replies(s, ops)) ==
           PlainRun(map["/" := Entry("", false, 0)], ops, Targets(s, ops))
  {
    hide Tree, Separate;
    InitialIsTree();
    RunRefinesPlain(State(INITIAL, map[]), ops);
    assert PlainOf(INITIAL) == map["/" := Entry("", false, 0)];
  }

  /** Creating `/b` and `//b` and deleting the second leaves a node that its parent does
      not list. */
  lemma DoubledRootBreaksIndex()
    ensures var s := Run(State(INITIAL, map[]), [Create("/b", "", false), Create("//b", "", false), Delete("//b")]);
      "/b" in s.nodes && "/" in s.nodes && "b" !in s.nodes["/"].children && !Tree(s.nodes)
  {
    hide Normalize, Parent, Child, Join, IsName, Placed;
    RootPaths();
    var s0 := State(INITIAL, map[]);
    var a, b, d := Create("/b", "", false), Create("//b", "", false), Delete("//b");
    var s1 := Step(s0, a).0;
    var none: set<string> := {};
    assert none + {"b"} == {"b"} && {"b"} - {"b"} == none;
    assert s1.nodes == map["/" := Node("", false, 0, {"b"}), "/b" := Node("", false, 0, {})];
    var s2 := Step(s1, b).0;
    assert s2.nodes == s1.nodes["//b" := Node("", false, 0, {})];
    var s3 := Step(s2, d).0;
    assert s3.nodes == map["/" := Node("", false, 0, {}), "/b" := Node("", false, 0, {})];
    ThreeSteps(s0, a, b, d);
    assert !Indexed(s3.nodes, "/", "b");
  }

  lemma ThreeSteps(s: State, a: Op, b: Op, c: Op)
    ensures Run(s, [a, b, c]) == Step(Step(Step(s, a).0, b).0, c).0
  {
    hide Step;
    assert [a, b, c][1..] == [b, c] && [b, c][1..] == [c] && [c][1..] == [];
    var t := Step(s, a).0;
    assert Run(Step(t, b).0, [c]) == Step(Step(t, b).0, c).0;
    assert Run(t, [b, c]) == Run(Step(t, b).0, [c]);
  }

  // ---- sequence numbers

  lemma {:induction false} DigitsValueOfZeros(k: nat, t: string)
    requires All(IsDigit, t)
    ensures All(IsDigit, Zeros(k) + t) && DigitsValue(Zeros(k) + t) == DigitsValue(t)
    decreases k
  {
    if k == 0 {
      assert Zeros(0) + t == t;
    } else {
      DigitsValueOfZeros(k - 1, t);
      LeadingZero(Zeros(k - 1) + t);
      assert Zeros(k) + t == "0" + (Zeros(k - 1) + t);
    }
  }

  lemma {:induction false} LeadingZero(t: string)
    requires All(IsDigit, t)
    ensures All(IsDigit, "0" + t) && DigitsValue("0" + t) == DigitsValue(t)
  {
    if t != "" {
      LeadingZero(t[..|t| - 1]);
      assert ("0" + t)[..|t|] == "0" + t[..|t| - 1];
    }
  }

  /** Different numbers give different node names. */
  lemma NumberedInjective(path: string, m: nat, n: nat)
    requires Numbered(path, m) == Numbered(path, n)
    ensures m == n
  {
    assert Padded(m) == Numbered(path, m)[|path| + 1..] == Numbered(path, n)[|path| + 1..] == Padded(n);
    PrintNatRoundTrip(m);
    PrintNatRoundTrip(n);
    DigitsValueOfZeros(if |PrintNat(m)| < 10 then 10 - |PrintNat(m)| else 0, PrintNat(m));
    DigitsValueOfZeros(if |PrintNat(n)| < 10 then 10 - |PrintNat(n)| else 0, PrintNat(n));
  }

  /** At least ten digits, and the value of the counter. */
  lemma PaddedIs(n: nat)
    ensures |Padded(n)| >= 10 && All(IsDigit, Padded(n)) && DigitsValue(Padded(n)) == n
    ensures |PrintNat(n)| <= 10 ==> |Padded(n)| == 10
  {
    PrintNatRoundTrip(n);
    DigitsValueOfZeros(if |PrintNat(n)| < 10 then 10 - |PrintNat(n)| else 0, PrintNat(n));
  }

  /** The sequential creates at a path so far. */
  function Sequenced(ops: seq<Op>, p: string): nat
    decreases |ops|
  {
    if ops == [] then 0
    else (if ops[0].CreateSequential? && Normalize(ops[0].path) == p then 1 else 0) + Sequenced(ops[1..], p)
  }

  /** Sequence numbers count the sequential creates at their path, successful or not. */
  lemma {:induction false} CountersCount(s: State, ops: seq<Op>, p: string)
    ensures Counter(Run(s, ops), p) == Counter(s, p) + Sequenced(ops, p)
    decreases |ops|
  {
    if ops != [] { CountersCount(Step(s, ops[0]).0, ops[1..], p); }
  }

  lemma {:induction false} CountersGrow(s: State, ops: seq<Op>, p: string)
    ensures Counter(s, p) <= Counter(Run(s, ops), p)
    decreases |ops|
  {
    if ops != [] { CountersGrow(Step(s, ops[0]).0, ops[1..], p); }
  }

  /** Two sequential creates at one path never aim at the same node, whatever happens in
      between. */
  lemma SequentialNamesDiffer(s: State, first: Op, between: seq<Op>, second: Op)
    requires first.CreateSequential? && second.CreateSequential? && Normalize(first.path) == Normalize(second.path)
    ensures Actual(s, first) != Actual(Run(Step(s, first).0, between), second)
  {
    var p, t := Normalize(first.path), Step(s, first).0;
    CountersGrow(t, between, p);
    assert Counter(t, p) == Counter(s, p) + 1;
    if Actual(s, first) == Actual(Run(t, between), second) {
      NumberedInjective(p, Counter(s, p) + 1, Counter(Run(t, between), p) + 1);
    }
  }

  // ---- what a path reads as

  /** The data of the sets that reach a path, in order. */
  function SetsOn(ops: seq<Op>, p: string): seq<string>
    decreases |ops|
  {
    if ops == [] then []
    else (if ops[0].Set? && Normalize(ops[0].path) == p then [ops[0].data] else []) + SetsOn(ops[1..], p)
  }

  function LastOf(first: string, later: seq<string>): string { if later == [] then first else later[|later| - 1] }

  lemma EntryStep(s: State, op: Op, p: string)
    requires p in s.nodes && !(op.Delete? && Normalize(op.path) == p)
    ensures p in Step(s, op).0.nodes
    ensures var e, n := s.nodes[p], Step(s, op).0.nodes[p];
      && n.ephemeral == e.ephemeral
      && if op.Set? && Normalize(op.path) == p then n.data == op.data && n.version == e.version + 1
         else n.data == e.data && n.version == e.version
  {
    hide Normalize, Parent, Child, Numbered;
  }

  /** Until a path is deleted it reads as the last data set on it, or as before when there was
      none, and its version has grown by the number of sets; nothing else touches it. */
  lemma {:induction false} ReadsLastSet(s: State, ops: seq<Op>, p: string)
    requires p in s.nodes && forall i | 0 <= i < |ops| :: !(ops[i].Delete? && Normalize(ops[i].path) == p)
    ensures p in Run(s, ops).nodes
    ensures var e, n := s.nodes[p], Run(s, ops).nodes[p];
      && n.data == LastOf(e.data, SetsOn(ops, p)) && n.version == e.version + |SetsOn(ops, p)|
      && n.ephemeral == e.ephemeral
    decreases |ops|
  {
    hide Normalize, Step;
    if ops != [] {
      EntryStep(s, ops[0], p);
      ReadsLastSet(Step(s, ops[0]).0, ops[1..], p);
      var sets := SetsOn(ops[1..], p);
      if ops[0].Set? && Normalize(ops[0].path) == p {
        assert LastOf(s.nodes[p].data, [ops[0].data] + sets) == LastOf(ops[0].data, sets);
      }
    }
  }

  /** A successful create stores its data at version zero. */
  lemma CreatedReads(s: State, op: Op)
    requires (op.Create? || op.CreateSequential?) && Step(s, op).1 == Ok
    ensures var a := Actual(s, op);
      && a !in s.nodes && a in Step(s, op).0.nodes
      && var n := Step(s, op).0.nodes[a]; n.data == op.data && n.ephemeral == op.ephemeral && n.version == 0
  {
    hide Normalize, Child, Numbered;
    ParentIsOther(s.nodes, Actual(s, op));
  }

  lemma ParentIsOther(nodes: Nodes, a: string)
    requires CreateReply(nodes, a) == Ok
    ensures Parent(a) == "" || Parent(a) != a
  {}

  // ---- the client object

  class Client {
    var nodes: Nodes
    var counters: map<string, nat>
    var connected: bool

    ghost function Value(): State
      reads this
    {
      State(nodes, counters)
    }

    constructor ()
      ensures Value() == State(INITIAL, map[]) && !connected && Tree(nodes)
    {
      InitialIsTree();
      nodes, counters, connected := INITIAL, map[], false;
    }

    method CreateNode(path: string, data: string, ephemeral: bool, sequence: bool) returns (reply: Reply)
      modifies this`nodes, this`counters
      ensures !connected ==> reply == InvalidState && Value() == old(Value())
      ensures connected && sequence ==> (Value(), reply) == Step(old(Value()), CreateSequential(path, data, ephemeral))
      ensures connected && !sequence ==> (Value(), reply) == Step(old(Value()), Create(path, data, ephemeral))
    {
      if !connected { return InvalidState; }
      var normalized := NormalizePath(path);
      var actual := normalized;
      ghost var op := if sequence then CreateSequential(path, data, ephemeral) else Create(path, data, ephemeral);
      if sequence {
        var seqno := (if normalized in counters then counters[normalized] else 0) + 1;
        counters := counters[normalized := seqno];
        actual := Numbered(normalized, seqno);
      }
      assert actual == Actual(old(Value()), op);
      if actual in nodes { return NodeExists; }
      var parent := Parent(actual);
      if parent != "" && parent !in nodes { return NoNode; }
      nodes := nodes[actual := Node(data, ephemeral, 0, {})];
      if parent != "" {
        nodes := nodes[parent := nodes[parent].(children := nodes[parent].children + {Child(actual)})];
      }
      reply := Ok;
    }

    method DeleteNode(path: string) returns (reply: Reply)
      modifies this`nodes
      ensures !connected ==> reply == InvalidState && Value() == old(Value())
      ensures connected ==> (Value(), reply) == Step(old(Value()), Delete(path))
    {
      if !connected { return InvalidState; }
      hide Normalize, Parent, Child;
      var normalized := NormalizePath(path);
      if normalized !in nodes { return NoNode; }
      if nodes[normalized].children != {} { return InvalidState; }
      var parent := Parent(normalized);
      if parent != "" {
        if parent !in nodes { nodes := nodes[parent := Node("", false, 0, {})]; }
        nodes := nodes[parent := nodes[parent].(children := nodes[parent].children - {Child(normalized)})];
        assert nodes == Unlisted(old(nodes), parent, Child(normalized));
      }
      nodes := nodes - {normalized};
      reply := Ok;
    }

    method SetNodeData(path: string, data: string) returns (reply: Reply)
      modifies this`nodes
      ensures !connected ==> reply == InvalidState && Value() == old(Value())
      ensures connected ==> (Value(), reply) == Step(old(Value()), Set(path, data))
    {
      if !connected { return InvalidState; }
      var normalized := NormalizePath(path);
      if normalized !in nodes { return NoNode; }
      var node := nodes[normalized];
      nodes := nodes[normalized := node.(data := data, version := node.version + 1)];
      reply := Ok;
    }

    method GetNodeData(path: string) returns (data: string)
      ensures data == if Normalize(path) in nodes then nodes[Normalize(path)].data else ""
    {
      var normalized := NormalizePath(path);
      if normalized !in nodes { return ""; }
      data := nodes[normalized].data;
    }

    /** On a tree, the listing is every name stored directly below the path, in order. */
    method GetChildren(path: string) returns (names: seq<string>)
      requires Tree(nodes)
      ensures forall i, j | 0 <= i < j < |names| :: Less(names[i], names[j])
      ensures forall c :: c in names <==> IsName(c) && Normalize(path) in nodes && Join(Normalize(path), c) in nodes
    {
      hide Less, Normalize, Join, Placed;
      var normalized := NormalizePath(path);
      if normalized !in nodes { return []; }
      names := [];
      var left := nodes[normalized].children;
      while left != {}
        invariant forall i, j | 0 <= i < j < |names| :: Less(names[i], names[j])
        invariant forall c :: c in nodes[normalized].children <==> c in left || c in names
        invariant forall i, c | 0 <= i < |names| && c in left :: Less(names[i], c)
        decreases |left|
      {
        var c := Least(left);
        forall later | later in left - {c} ensures Less(c, later) { assert AtMost(c, later); }
        names := names + [c];
        left := left - {c};
      }
      forall c ensures c in names <==> IsName(c) && Join(normalized, c) in nodes {
        assert Indexed(nodes, normalized, c);
      }
    }
  }
}
