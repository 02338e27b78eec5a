/** What the flattened map means: looking up a dotted path gives the value that the path
    leads to in the tree, and nothing else is in the map. */
module ConfigLookup {
  import opened Basics
  import opened Text
  import opened ConfigParser
  import opened ConfigRoundTrip

  predicate NotDot(c: char) { c != '.' }

  /** Keys of an object are free of dots and pairwise distinct, at every level. */
  predicate WellKeyed(t: Json) {
    match t
    case Str(_) => true
    case Scalar(_, _, _) => true
    case Object(members, _) => WellKeyedMembers(members)
    case Array(items, _) => WellKeyedItems(items)
  }

  predicate WellKeyedMembers(ms: seq<Member>) {
    ms == [] ||
    (ms[0].key != "" && All(NotDot, ms[0].key) && WellKeyed(ms[0].value) && WellKeyedMembers(ms[1..]) &&
     forall i | 1 <= i < |ms| :: ms[i].key != ms[0].key)
  }

  predicate WellKeyedItems(xs: seq<Item>) {
    xs == [] || (WellKeyed(xs[0].value) && WellKeyedItems(xs[1..]))
  }

  /** Follows a path of keys and indices to a leaf, with its comment when it is an element. */
  function Resolve(t: Json, keep: bool, path: seq<string>): Option<string> {
    match t
    case Str(text) => if path == [] then Some(text) else None
    case Scalar(token, gap, note) =>
      if path != [] then None else Some(if keep then token + gap + note else token)
    case Object(members, _) => if path == [] then None else ResolveMembers(members, path)
    case Array(items, _) => if path == [] then None else ResolveItems(items, 0, path)
  }

  function ResolveMembers(ms: seq<Member>, path: seq<string>): Option<string>
    requires path != []
  {
    if ms == [] then None
    else if ms[0].key == path[0] then Resolve(ms[0].value, false, path[1..])
    else ResolveMembers(ms[1..], path)
  }

  function ResolveItems(xs: seq<Item>, index: nat, path: seq<string>): Option<string>
    requires path != []
  {
    if xs == [] then None
    else if PrintInt(index) == path[0] then Resolve(xs[0].value, true, path[1..])
    else ResolveItems(xs[1..], index + 1, path)
  }

  /** The dotted key of a path below a prefix. */
  function Dotted(prefix: string, path: seq<string>): string
    decreases |path|
  {
    if path == [] then prefix else Dotted(ObjectKey(prefix, path[0]), path[1..])
  }

  /** `key` is the prefix itself or something below it. */
  predicate Under(prefix: string, key: string) { key == prefix || prefix + "." <= key }

  // ---- subtrees write below their own key only

  lemma UnderTransitive(prefix: string, name: string, key: string)
    requires Under(prefix + "." + name, key)
    ensures Under(prefix, key) && |key| > |prefix|
  {
    if key != prefix + "." + name {
      var p := prefix + "." + name + ".";
      assert p <= key && prefix + "." <= p;
    }
  }

  /** Different dot-free names under the same start never share a key. */
  lemma SameName(start: string, a: string, b: string, key: string)
    requires All(NotDot, a) && All(NotDot, b) && Under(start + a, key) && Under(start + b, key)
    ensures a == b
  {
    NameOf(start, a, key);
    NameOf(start, b, key);
  }

  lemma NameOf(start: string, a: string, key: string)
    requires All(NotDot, a) && Under(start + a, key)
    ensures |start| + |a| <= |key| && Span(NotDot, key[|start|..]) == |a| && key[|start|..][..|a|] == a
  {
    var rest := key[|start + a|..];
    assert key == start + a + rest;
    assert rest == "" || rest[0] == '.' by {
      if key != start + a { assert key[|start + a|] == (start + a + ".")[|start + a|]; }
    }
    assert key[|start|..] == a + rest;
    SpanIs(NotDot, a, rest);
  }

  function At(values: Values, key: string): Option<string> { if key in values then Some(values[key]) else None }

  lemma {:induction false} FlatOutside(t: Json, keep: bool, prefix: string, values: Values, key: string)
    requires prefix != "" && !Under(prefix, key)
    ensures At(Flat(t, keep, prefix, values), key) == At(values, key)
    decreases t, 1
  {
    match t
    case Str(_) =>
    case Scalar(_, _, _) =>
    case Object(members, _) => MembersOutside(members, prefix, values, key);
    case Array(items, _) => ItemsOutside(items, prefix, 0, values, key);
  }

  /** Members leave alone every key that is not under one of them. */
  lemma {:induction false} MembersOutside(ms: seq<Member>, prefix: string, values: Values, key: string)
    requires prefix != "" && (!Under(prefix, key) || key == prefix)
    ensures At(FlatMembers(ms, prefix, values), key) == At(values, key)
    decreases ms, 0
  {
    if ms != [] {
      var child := ObjectKey(prefix, ms[0].key);
      if Under(child, key) { UnderTransitive(prefix, ms[0].key, key); }
      FlatOutside(ms[0].value, false, child, values, key);
      MembersOutside(ms[1..], prefix, Flat(ms[0].value, false, child, values), key);
    }
  }

  lemma {:induction false} ItemsOutside(xs: seq<Item>, prefix: string, index: nat, values: Values, key: string)
    requires !Under(prefix, key) || key == prefix
    ensures At(FlatItems(xs, prefix, index, values), key) == At(values, key)
    decreases xs, 0
  {
    if xs != [] {
      var child := ArrayKey(prefix, index);
      if Under(child, key) { UnderTransitive(prefix, PrintInt(index), key); }
      FlatOutside(xs[0].value, true, child, values, key);
      ItemsOutside(xs[1..], prefix, index + 1, Flat(xs[0].value, true, child, values), key);
    }
  }

  // ---- lookup

  predicate Clean(path: seq<string>) { forall i | 0 <= i < |path| :: All(NotDot, path[i]) }

  lemma {:induction false} DottedUnder(prefix: string, path: seq<string>)
    requires prefix != ""
    ensures Under(prefix, Dotted(prefix, path)) && (path != [] ==> |Dotted(prefix, path)| > |prefix|)
    decreases |path|
  {
    if path != [] {
      var child := prefix + "." + path[0];
      DottedUnder(child, path[1..]);
      UnderTransitive(prefix, path[0], Dotted(prefix, path));
    }
  }

  /** What a key holds after flattening: the leaf it leads to, or what was there before. */
  function Found(leaf: Option<string>, before: Option<string>): Option<string> {
    if leaf.Some? then leaf else before
  }

  lemma {:induction false} ValueLookup(t: Json, keep: bool, prefix: string, path: seq<string>, values: Values)
    requires prefix != "" && WellKeyed(t) && Clean(path)
    ensures At(Flat(t, keep, prefix, values), Dotted(prefix, path)) ==
      Found(Resolve(t, keep, path), At(values, Dotted(prefix, path)))
    decreases t, 2
  {
    DottedUnder(prefix, path);
    match t
    case Str(_) =>
    case Scalar(_, _, _) =>
    case Object(members, _) =>
      if path == [] { MembersOutside(members, prefix, values, prefix); }
      else { MembersLookup(members, prefix, path, values); }
    case Array(items, _) =>
      if path == [] { ItemsOutside(items, prefix, 0, values, prefix); }
      else { ItemsLookup(items, prefix, 0, path, values); }
  }

  function Start(prefix: string): string { if prefix == "" then "" else prefix + "." }

  /** The other members do not write to a key that belongs to one of them. */
  lemma {:induction false} MembersApart(ms: seq<Member>, prefix: string, name: string, values: Values, key: string)
    requires WellKeyedMembers(ms) && All(NotDot, name) && Under(Start(prefix) + name, key)
    requires forall i | 0 <= i < |ms| :: ms[i].key != name
    ensures At(FlatMembers(ms, prefix, values), key) == At(values, key)
    decreases ms, 0
  {
    if ms != [] {
      var child := ObjectKey(prefix, ms[0].key);
      assert child == Start(prefix) + ms[0].key;
      if Under(child, key) { SameName(Start(prefix), ms[0].key, name, key); }
      FlatOutside(ms[0].value, false, child, values, key);
      MembersApart(ms[1..], prefix, name, Flat(ms[0].value, false, child, values), key);
    }
  }

  lemma {:induction false} MembersLookup(ms: seq<Member>, prefix: string, path: seq<string>, values: Values)
    requires WellKeyedMembers(ms) && Clean(path) && path != [] && (prefix != "" || path[0] != "")
    ensures At(FlatMembers(ms, prefix, values), Dotted(prefix, path)) ==
      Found(ResolveMembers(ms, path), At(values, Dotted(prefix, path)))
    decreases ms, 1
  {
    if ms != [] {
      var m, more := ms[0], ms[1..];
      var child, key := ObjectKey(prefix, m.key), Dotted(prefix, path);
      var after := Flat(m.value, false, child, values);
      assert All(NotDot, path[0]) && ObjectKey(prefix, path[0]) == Start(prefix) + path[0];
      DottedUnder(ObjectKey(prefix, path[0]), path[1..]);
      if m.key == path[0] {
        ValueLookup(m.value, false, child, path[1..], values);
        MembersApart(more, prefix, m.key, after, key);
      } else {
        assert child == Start(prefix) + m.key;
        if Under(child, key) { SameName(Start(prefix), m.key, path[0], key); }
        FlatOutside(m.value, false, child, values, key);
        MembersLookup(more, prefix, path, after);
      }
    }
  }

  lemma {:induction false} ItemsApart(xs: seq<Item>, prefix: string, index: nat, name: string,
                                      values: Values, key: string)
    requires prefix != "" && All(NotDot, name) && Under(prefix + "." + name, key)
    requires forall i | index <= i < index + |xs| :: PrintInt(i) != name
    ensures At(FlatItems(xs, prefix, index, values), key) == At(values, key)
    decreases xs, 0
  {
    if xs != [] {
      var child := ArrayKey(prefix, index);
      NumeralHasNoDot(index);
      if Under(child, key) { SameName(prefix + ".", PrintInt(index), name, key); }
      FlatOutside(xs[0].value, true, child, values, key);
      ItemsApart(xs[1..], prefix, index + 1, name, Flat(xs[0].value, true, child, values), key);
    }
  }

  lemma NumeralHasNoDot(n: int)
    ensures All(NotDot, PrintInt(n))
  {
    PrintIntIsToken(n);
    assert forall i | 0 <= i < |PrintInt(n)| :: IsNumeral(PrintInt(n)[i]);
  }

  lemma {:induction false} ItemsLookup(xs: seq<Item>, prefix: string, index: nat, path: seq<string>, values: Values)
    requires prefix != "" && WellKeyedItems(xs) && Clean(path) && path != []
    ensures At(FlatItems(xs, prefix, index, values), Dotted(prefix, path)) ==
      Found(ResolveItems(xs, index, path), At(values, Dotted(prefix, path)))
    decreases xs, 1
  {
    if xs != [] {
      var child, key := ArrayKey(prefix, index), Dotted(prefix, path);
      var after := Flat(xs[0].value, true, child, values);
      NumeralHasNoDot(index);
      assert All(NotDot, path[0]);
      DottedUnder(ObjectKey(prefix, path[0]), path[1..]);
      if PrintInt(index) == path[0] {
        ValueLookup(xs[0].value, true, child, path[1..], values);
        forall i | index + 1 <= i < index + |xs|
          ensures PrintInt(i) != path[0]
        {
          if PrintInt(i) == path[0] { PrintIntInjective(i, index); }
        }
        ItemsApart(xs[1..], prefix, index + 1, path[0], after, key);
      } else {
        if Under(child, key) { SameName(prefix + ".", PrintInt(index), path[0], key); }
        FlatOutside(xs[0].value, true, child, values, key);
        ItemsLookup(xs[1..], prefix, index + 1, path, after);
      }
    }
  }

  /** Looking up a dotted path in the map of a whole configuration gives the leaf that the
      path leads to, and nothing when it leads to none. */
  lemma ConfigLookup(t: Json, path: seq<string>)
    requires t.Object? && WellKeyed(t) && Clean(path) && path != [] && path[0] != ""
    ensures At(Flat(t, false, "", map[]), Dotted("", path)) == Resolve(t, false, path)
  {
    MembersLookup(t.members, "", path, map[]);
  }
}
