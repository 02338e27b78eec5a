/** Reading back printed configuration: trees with any layout of blanks between tokens. */
module ConfigRoundTrip {
  import opened Basics
  import opened Text
  import opened ConfigParser

  /** A configuration tree together with the blanks around its parts. A number, boolean or
      null may be followed by a comment. */
  datatype Json =
    | Str(text: string)
    | Scalar(token: string, gap: string, note: string)
    | Object(members: seq<Member>, close: string)
    | Array(items: seq<Item>, close: string)

  /** lead "key" gap : gap value trail */
  datatype Member = Member(lead: string, key: string, gap1: string, gap2: string, value: Json, trail: string)
  datatype Item = Item(lead: string, value: Json, trail: string)

  // ---- printing

  function Escape(s: string): string {
    if s == "" then ""
    else (if s[0] == '"' || s[0] == '\\' then ['\\', s[0]] else [s[0]]) + Escape(s[1..])
  }

  function Quote(s: string): string { "\"" + Escape(s) + "\"" }

  function Print(t: Json): string {
    match t
    case Str(text) => Quote(text)
    case Scalar(token, gap, note) => token + gap + note
    case Object(members, close) => "{" + PrintMembers(members) + close + "}"
    case Array(items, close) => "[" + PrintItems(items) + close + "]"
  }

  function PrintMembers(ms: seq<Member>): string {
    if ms == [] then ""
    else
      var m := ms[0];
      m.lead + Quote(m.key) + m.gap1 + ":" + m.gap2 + Print(m.value) + m.trail +
      (if |ms| > 1 then "," else "") + PrintMembers(ms[1..])
  }

  function PrintItems(xs: seq<Item>): string {
    if xs == [] then ""
    else xs[0].lead + Print(xs[0].value) + xs[0].trail + (if |xs| > 1 then "," else "") + PrintItems(xs[1..])
  }

  // ---- meaning: dotted keys

  /** Elements of arrays keep a comment as a part of their value, members drop it. */
  function Flat(t: Json, keep: bool, key: string, values: Values): Values {
    match t
    case Str(text) => values[key := text]
    case Scalar(token, gap, note) => values[key := if keep then token + gap + note else token]
    case Object(members, _) => FlatMembers(members, key, values)
    case Array(items, _) => FlatItems(items, key, 0, values)
  }

  function FlatMembers(ms: seq<Member>, prefix: string, values: Values): Values {
    if ms == [] then values
    else FlatMembers(ms[1..], prefix, Flat(ms[0].value, false, ObjectKey(prefix, ms[0].key), values))
  }

  function FlatItems(xs: seq<Item>, prefix: string, index: nat, values: Values): Values {
    if xs == [] then values
    else FlatItems(xs[1..], prefix, index + 1, Flat(xs[0].value, true, ArrayKey(prefix, index), values))
  }

  // ---- which trees are legal

  predicate Blank(s: string) { All(IsBlank, s) }

  /** Text that is read as one token: no separators, no blanks at either end, and nothing
      that starts another kind of value. */
  predicate IsScalar(s: string) {
    && s != "" && All(InScalar, s) && !IsBlank(s[0]) && !IsBlank(s[|s| - 1])
    && s[0] != '{' && s[0] != '[' && s[0] != '"'
  }

  predicate NoComment(s: string) { forall i | 0 <= i < |s| - 1 :: s[i] != '/' || s[i + 1] != '/' }

  /** A number, boolean or null as it may be written: a token without a double slash, and
      perhaps a comment that the token does not run into. */
  predicate LegalScalar(token: string, gap: string, note: string) {
    && IsScalar(token + gap + note) && NoComment(token) && Blank(gap) && (token != "" ==> !IsBlank(token[|token| - 1]))
    && if note == "" then gap == "" else "//" <= note && (token != "" && gap == "" ==> token[|token| - 1] != '/')
  }

  predicate Legal(t: Json) {
    match t
    case Str(_) => true
    case Scalar(token, gap, note) => LegalScalar(token, gap, note)
    case Object(members, close) => Blank(close) && LegalMembers(members)
    case Array(items, close) => Blank(close) && LegalItems(items)
  }

  predicate LegalMembers(ms: seq<Member>) {
    ms == [] ||
    (Blank(ms[0].lead) && ms[0].key != "" && Blank(ms[0].gap1) && Blank(ms[0].gap2) && Blank(ms[0].trail) &&
     Legal(ms[0].value) && LegalMembers(ms[1..]))
  }

  predicate LegalItems(xs: seq<Item>) {
    xs == [] || (Blank(xs[0].lead) && Blank(xs[0].trail) && Legal(xs[0].value) && LegalItems(xs[1..]))
  }

  // ---- tokens

  lemma SkipBlankIs(pad: string, rest: string)
    requires Blank(pad) && (rest != "" ==> !IsBlank(rest[0]))
    ensures SkipBlank(pad + rest) == rest
  {
    SpanIs(IsBlank, pad, rest);
  }

  lemma BodyStep(c: char, tail: string)
    ensures StringBody((if c == '"' || c == '\\' then ['\\', c] else [c]) + tail) ==
      ([c] + StringBody(tail).0, StringBody(tail).1)
  {
    var r := (if c == '"' || c == '\\' then ['\\', c] else [c]) + tail;
    assert r[if c == '"' || c == '\\' then 2 else 1..] == tail;
  }

  lemma {:induction false} QuotedReadsBack(s: string, rest: string)
    ensures StringBody(Escape(s) + "\"" + rest) == (s, rest)
  {
    if s == "" {
      assert Escape(s) + "\"" + rest == "\"" + rest;
    } else {
      hide StringBody;
      QuotedReadsBack(s[1..], rest);
      var tail := Escape(s[1..]) + "\"" + rest;
      var head := if s[0] == '"' || s[0] == '\\' then ['\\', s[0]] else [s[0]];
      assert Escape(s) + "\"" + rest == head + tail;
      BodyStep(s[0], tail);
      assert s == [s[0]] + s[1..];
    }
  }

  lemma QuoteReads(s: string, rest: string)
    ensures StringToken(Quote(s) + rest) == (s, rest)
  {
    QuotedReadsBack(s, rest);
    assert (Quote(s) + rest)[1..] == Escape(s) + "\"" + rest;
  }

  lemma {:induction false} TrimEndIs(s: string, pad: string)
    requires Blank(pad) && s != "" && !IsBlank(s[|s| - 1])
    ensures TrimEnd(s + pad) == s
  {
    if pad == "" {
      assert s + pad == s;
    } else {
      var n := |pad| - 1;
      assert (s + pad)[..|s + pad| - 1] == s + pad[..n];
      TrimEndIs(s, pad[..n]);
    }
  }

  /** A scalar followed by blanks and a separator: the blanks up to a line end are cut off
      with the token, the rest is left. */
  lemma ScalarReads(token: string, trail: string, rest: string) returns (left: string)
    requires IsScalar(token) && Blank(trail) && rest != "" && !InScalar(rest[0]) && !IsBlank(rest[0])
    ensures ValueToken(token + trail + rest) == (token, left) && SkipBlank(left) == rest
  {
    var n := Span(InScalar, trail);
    var soft, hard := trail[..n], trail[n..];
    left := hard + rest;
    assert token + trail + rest == (token + soft) + left;
    assert All(InScalar, token + soft);
    SpanIs(InScalar, token + soft, left);
    SpanIs(IsBlank, "", token + soft);
    assert "" + (token + soft) == token + soft;
    TrimEndIs(token, soft);
    SkipBlankIs(hard, rest);
  }

  lemma {:induction false} CommentIs(a: string, note: string)
    requires NoComment(a) && (note == "" || "//" <= note) && (note != "" && a != "" ==> a[|a| - 1] != '/')
    ensures CommentAt(a + note) == |a|
  {
    if a == "" {
      assert a + note == note;
    } else {
      CommentIs(a[1..], note);
      assert (a + note)[1..] == a[1..] + note;
      assert (a + note)[0] == a[0] && (|a| > 1 ==> (a + note)[1] == a[1]);
    }
  }

  lemma GapHasNoComment(token: string, gap: string)
    requires NoComment(token) && Blank(gap)
    ensures NoComment(token + gap)
  {
    var s := token + gap;
    forall i | 0 <= i < |s| - 1 ensures s[i] != '/' || s[i + 1] != '/' {
      if i + 1 < |token| { assert s[i] == token[i] && s[i + 1] == token[i + 1]; }
      else { assert s[i + 1] == gap[i + 1 - |token|]; }
    }
  }

  /** A comment is cut off a member's value, and a value without one is left alone. */
  lemma CommentIsCut(token: string, gap: string, note: string)
    requires LegalScalar(token, gap, note)
    ensures StripComment(token + gap + note) == token
  {
    var a := token + gap;
    GapHasNoComment(token, gap);
    assert gap != "" ==> a[|a| - 1] == gap[|gap| - 1];
    CommentIs(a, note);
    if note != "" {
      assert (a + note)[..|a|] == a;
      TrimIs(token, gap);
    } else {
      assert token + gap + note == token;
    }
  }

  lemma TrimIs(token: string, gap: string)
    requires Blank(gap) && (token != "" ==> !IsBlank(token[0]) && !IsBlank(token[|token| - 1]))
    ensures Trim(token + gap) == token
  {
    if token == "" {
      SkipBlankIs(gap, "");
      assert gap + "" == token + gap;
    } else {
      SkipBlankIs("", token + gap);
      assert "" + (token + gap) == token + gap;
      TrimEndIs(token, gap);
    }
  }

  // ---- one step of each loop

  lemma SkipTwice(r: string)
    ensures SkipBlank(SkipBlank(r)) == SkipBlank(r)
  {
    SkipBlankIs("", SkipBlank(r));
    assert "" + SkipBlank(r) == SkipBlank(r);
  }

  lemma ObjectSkips(r: string, prefix: string, values: Values)
    ensures ObjectItems(r, prefix, values) == ObjectItems(SkipBlank(r), prefix, values)
  {
    hide ReadMember, StringToken;
    SkipTwice(r);
  }

  lemma ArraySkips(r: string, prefix: string, index: nat, values: Values)
    ensures ArrayItems(r, prefix, index, values) == ArrayItems(SkipBlank(r), prefix, index, values)
  {
    hide ReadItem;
    SkipTwice(r);
  }

  lemma ObjectEnds(pad: string, rest: string, prefix: string, values: Values)
    requires Blank(pad)
    ensures ObjectItems(pad + "}" + rest, prefix, values) == Done(rest, values)
  {
    hide ReadMember, StringToken;
    SkipBlankIs(pad, "}" + rest);
    assert pad + "}" + rest == pad + ("}" + rest);
  }

  lemma ArrayEnds(pad: string, rest: string, prefix: string, index: nat, values: Values)
    requires Blank(pad)
    ensures ArrayItems(pad + "]" + rest, prefix, index, values) == Done(rest, values)
  {
    hide ReadItem;
    SkipBlankIs(pad, "]" + rest);
    assert pad + "]" + rest == pad + ("]" + rest);
  }

  lemma ObjectComma(rest: string, prefix: string, values: Values)
    ensures ObjectItems("," + rest, prefix, values) == ObjectItems(rest, prefix, values)
  {
    hide ReadMember, StringToken;
    SkipBlankIs("", "," + rest);
    assert "" + ("," + rest) == "," + rest && ("," + rest)[1..] == rest;
  }

  lemma ArrayComma(rest: string, prefix: string, index: nat, values: Values)
    ensures ArrayItems("," + rest, prefix, index, values) == ArrayItems(rest, prefix, index, values)
  {
    hide ReadItem;
    SkipBlankIs("", "," + rest);
    assert "" + ("," + rest) == "," + rest && ("," + rest)[1..] == rest;
  }

  /** A member with its key and colon, up to its value. */
  lemma MemberStep(m: Member, body: string, prefix: string, values: Values)
    requires Blank(m.lead) && m.key != "" && Blank(m.gap1) && Blank(m.gap2) && body != "" && !IsBlank(body[0])
    ensures var member := ReadMember(body, ObjectKey(prefix, m.key), values);
      ObjectItems(m.lead + Quote(m.key) + m.gap1 + ":" + m.gap2 + body, prefix, values) ==
        if member.Endless? then Endless else ObjectItems(member.rest, prefix, member.values)
  {
    hide ReadMember, StringToken, Quote, ObjectKey, All;
    var r := m.lead + Quote(m.key) + m.gap1 + ":" + m.gap2 + body;
    var afterColon := m.gap2 + body;
    var afterKey := m.gap1 + (":" + afterColon);
    assert r == m.lead + (Quote(m.key) + afterKey);
    QuoteStarts(m.key);
    SkipBlankIs(m.lead, Quote(m.key) + afterKey);
    QuoteReads(m.key, afterKey);
    SkipBlankIs(m.gap1, ":" + afterColon);
    assert (":" + afterColon)[1..] == afterColon;
    SkipBlankIs(m.gap2, body);
  }

  lemma QuoteStarts(s: string)
    ensures Quote(s) != "" && Quote(s)[0] == '"'
  {}

  lemma ItemStep(lead: string, body: string, prefix: string, index: nat, values: Values)
    requires Blank(lead) && body != "" && !IsBlank(body[0])
    requires body[0] != ',' && body[0] != ']' && body[0] != '}'
    ensures var item := ReadItem(body, ArrayKey(prefix, index), values);
      ArrayItems(lead + body, prefix, index, values) ==
        if item.Endless? then Endless else ArrayItems(item.rest, prefix, index + 1, item.values)
  {
    hide ReadItem;
    SkipBlankIs(lead, body);
  }

  // ---- the round trip

  predicate StopsScalar(stop: string) { stop != "" && !InScalar(stop[0]) && !IsBlank(stop[0]) }

  lemma PrintStarts(t: Json)
    requires Legal(t)
    ensures var p := Print(t);
      p != "" && !IsBlank(p[0]) && p[0] != ',' && p[0] != ']' && p[0] != '}'
  {
    hide PrintMembers, PrintItems;
    match t
    case Str(text) => QuoteStarts(text);
    case Scalar(token, gap, note) => assert InScalar((token + gap + note)[0]);
    case Object(_, _) =>
    case Array(_, _) =>
  }

  /** A printed value, followed by blanks and a separator, reads back as its leaves, and
      nothing but blanks is consumed after it. */
  lemma {:induction false} ValueReads(t: Json, key: string, pad: string, stop: string, values: Values)
    returns (left: string)
    requires Legal(t) && Blank(pad) && StopsScalar(stop)
    ensures Print(t) + pad + stop != ""
    ensures ReadMember(Print(t) + pad + stop, key, values) == Done(left, Flat(t, false, key, values))
    ensures Print(t)[0] != ',' && Print(t)[0] != ']' && Print(t)[0] != '}' && !IsBlank(Print(t)[0])
    ensures ReadItem(Print(t) + pad + stop, key, values) == Done(left, Flat(t, true, key, values))
    ensures SkipBlank(left) == stop
    decreases t, 1
  {
    hide PrintMembers, PrintItems, ObjectItems, ArrayItems, All, ReadMember, ReadItem, Print, SkipBlank;
    PrintStarts(t);
    match t {
      case Str(_) =>
        left := LeafReads(t, key, pad, stop, values);
      case Scalar(_, _, _) =>
        left := LeafReads(t, key, pad, stop, values);
      case Object(members, close) =>
        left := pad + stop;
        SkipBlankIs(pad, stop);
        MembersRead(members, close, left, key, values);
        ReadOpened(PrintMembers(members) + close + "}" + left, key, values);
        PrintedObject(members, close, pad, stop);
      case Array(items, close) =>
        left := pad + stop;
        SkipBlankIs(pad, stop);
        ItemsRead(items, close, left, key, 0, values);
        ReadOpened(PrintItems(items) + close + "]" + left, key, values);
        PrintedArray(items, close, pad, stop);
    }
  }

  lemma ReadOpened(body: string, key: string, values: Values)
    ensures ReadMember("{" + body, key, values) == ReadItem("{" + body, key, values) == ObjectItems(body, key, values)
    ensures ReadMember("[" + body, key, values) == ReadItem("[" + body, key, values) == ArrayItems(body, key, 0, values)
  {
    hide ObjectItems, ArrayItems;
    assert ("{" + body)[1..] == body && ("[" + body)[1..] == body;
  }

  lemma PrintedObject(members: seq<Member>, close: string, pad: string, stop: string)
    ensures Print(Object(members, close)) + pad + stop == "{" + (PrintMembers(members) + close + "}" + (pad + stop))
  {
    hide PrintMembers;
  }

  lemma PrintedArray(items: seq<Item>, close: string, pad: string, stop: string)
    ensures Print(Array(items, close)) + pad + stop == "[" + (PrintItems(items) + close + "]" + (pad + stop))
  {
    hide PrintItems;
  }

  lemma LeafReads(t: Json, key: string, pad: string, stop: string, values: Values) returns (left: string)
    requires Legal(t) && (t.Str? || t.Scalar?) && Blank(pad) && StopsScalar(stop)
    ensures Print(t) + pad + stop != ""
    ensures ReadMember(Print(t) + pad + stop, key, values) == Done(left, Flat(t, false, key, values))
    ensures Print(t)[0] != ',' && Print(t)[0] != ']' && Print(t)[0] != '}' && !IsBlank(Print(t)[0])
    ensures ReadItem(Print(t) + pad + stop, key, values) == Done(left, Flat(t, true, key, values))
    ensures SkipBlank(left) == stop
  {
    hide StringToken, ValueToken, Quote, SkipBlank;
    PrintStarts(t);
    if t.Str? {
      left := pad + stop;
      SkipBlankIs(pad, stop);
      QuoteStarts(t.text);
      assert Print(t) + pad + stop == Quote(t.text) + left;
      QuoteReads(t.text, left);
    } else {
      left := ScalarReads(t.token + t.gap + t.note, pad, stop);
      CommentIsCut(t.token, t.gap, t.note);
      hide StripComment;
    }
  }

  lemma {:induction false} MemberReads(m: Member, pad: string, stop: string, prefix: string, values: Values)
    requires LegalMembers([m]) && Blank(pad) && StopsScalar(stop)
    ensures ObjectItems(m.lead + Quote(m.key) + m.gap1 + ":" +
      m.gap2 + (Print(m.value) + pad + stop), prefix, values) ==
      ObjectItems(stop, prefix, Flat(m.value, false, ObjectKey(prefix, m.key), values))
    decreases m.value, 2
  {
    hide ObjectItems, ReadMember, ReadItem, Quote, Print, Flat, Legal, SkipBlank, ObjectKey;
    PrintStarts(m.value);
    MemberStep(m, Print(m.value) + pad + stop, prefix, values);
    var left := ValueReads(m.value, ObjectKey(prefix, m.key), pad, stop, values);
    ObjectSkips(left, prefix, Flat(m.value, false, ObjectKey(prefix, m.key), values));
  }

  lemma {:induction false} MembersRead(ms: seq<Member>, close: string, rest: string, prefix: string, values: Values)
    requires LegalMembers(ms) && Blank(close)
    ensures ObjectItems(PrintMembers(ms) + close + "}" + rest, prefix, values) ==
      Done(rest, FlatMembers(ms, prefix, values))
    decreases ms, 0
  {
    hide ObjectItems, Quote, Print, PrintMembers, Flat, Legal, ObjectKey, All;
    NothingPrinted();
    if ms == [] {
      ObjectEnds(close, rest, prefix, values);
      assert "" + close + "}" + rest == close + "}" + rest;
    } else {
      var m, more := ms[0], ms[1..];
      assert ms == [m] + more;
      var tail := PrintMembers(more) + close + "}" + rest;
      var after := Flat(m.value, false, ObjectKey(prefix, m.key), values);
      if more == [] {
        BlankJoin(m.trail, close);
        MemberText(m, more, close, rest, m.trail + close, "}" + rest);
        MemberReads(m, m.trail + close, "}" + rest, prefix, values);
        ObjectEnds("", rest, prefix, after);
        assert "" + "}" + rest == "}" + rest;
      } else {
        MemberText(m, more, close, rest, m.trail, "," + tail);
        MemberReads(m, m.trail, "," + tail, prefix, values);
        ObjectComma(tail, prefix, after);
        MembersRead(more, close, rest, prefix, after);
      }
    }
  }

  lemma NothingPrinted()
    ensures PrintMembers([]) == "" && PrintItems([]) == "" && Blank("")
  {}

  lemma BlankJoin(a: string, b: string)
    requires Blank(a) && Blank(b)
    ensures Blank(a + b)
  {}

  lemma MemberText(m: Member, more: seq<Member>, close: string, rest: string, pad: string, stop: string)
    requires pad == if more == [] then m.trail + close else m.trail
    requires stop == if more == [] then "}" + rest else "," + (PrintMembers(more) + close + "}" + rest)
    ensures PrintMembers([m] + more) + close + "}" + rest ==
      m.lead + Quote(m.key) + m.gap1 + ":" + m.gap2 + (Print(m.value) + pad + stop)
  {
    hide Quote, Print, PrintMembers;
    var head := m.lead + Quote(m.key) + m.gap1 + ":" + m.gap2;
    MembersUnfold(m, more);
    if more == [] {
      RegroupLast(head, Print(m.value), m.trail, close, "}", rest);
    } else {
      RegroupMore(head, Print(m.value), m.trail, PrintMembers(more), close, "}", rest);
    }
  }

  lemma MembersUnfold(m: Member, more: seq<Member>)
    ensures PrintMembers([m] + more) ==
      m.lead + Quote(m.key) + m.gap1 + ":" + m.gap2 + Print(m.value) + m.trail +
      (if more == [] then "" else ",") + PrintMembers(more)
    ensures more == [] ==> PrintMembers(more) == ""
  {
    hide Quote, Print;
    assert ([m] + more)[1..] == more;
  }

  lemma RegroupLast(head: string, value: string, trail: string, close: string, brace: string, rest: string)
    ensures head + value + trail + "" + "" + close + brace + rest == head + (value + (trail + close) + (brace + rest))
  {}

  lemma RegroupMore(head: string, value: string, trail: string, more: string,
                    close: string, brace: string, rest: string)
    ensures head + value + trail + "," + more + close + brace + rest ==
      head + (value + trail + ("," + (more + close + brace + rest)))
  {}

  lemma {:induction false} ItemReads(x: Item, pad: string, stop: string, prefix: string, index: nat, values: Values)
    requires LegalItems([x]) && Blank(pad) && StopsScalar(stop)
    ensures ArrayItems(x.lead + (Print(x.value) + pad + stop), prefix, index, values) ==
      ArrayItems(stop, prefix, index + 1, Flat(x.value, true, ArrayKey(prefix, index), values))
    decreases x.value, 2
  {
    hide ArrayItems, ReadMember, ReadItem, Print, Flat, Legal, SkipBlank, ArrayKey;
    PrintStarts(x.value);
    ItemStep(x.lead, Print(x.value) + pad + stop, prefix, index, values);
    var left := ValueReads(x.value, ArrayKey(prefix, index), pad, stop, values);
    ArraySkips(left, prefix, index + 1, Flat(x.value, true, ArrayKey(prefix, index), values));
  }

  lemma {:induction false} ItemsRead(xs: seq<Item>, close: string, rest: string, prefix: string,
                                     index: nat, values: Values)
    requires LegalItems(xs) && Blank(close)
    ensures ArrayItems(PrintItems(xs) + close + "]" + rest, prefix, index, values) ==
      Done(rest, FlatItems(xs, prefix, index, values))
    decreases xs, 0
  {
    hide ArrayItems, Print, PrintItems, Flat, Legal, ArrayKey, All;
    NothingPrinted();
    if xs == [] {
      ArrayEnds(close, rest, prefix, index, values);
      assert "" + close + "]" + rest == close + "]" + rest;
    } else {
      var x, more := xs[0], xs[1..];
      assert xs == [x] + more;
      var tail := PrintItems(more) + close + "]" + rest;
      var after := Flat(x.value, true, ArrayKey(prefix, index), values);
      if more == [] {
        BlankJoin(x.trail, close);
        ItemText(x, more, close, rest, x.trail + close, "]" + rest);
        ItemReads(x, x.trail + close, "]" + rest, prefix, index, values);
        ArrayEnds("", rest, prefix, index + 1, after);
        assert "" + "]" + rest == "]" + rest;
      } else {
        ItemText(x, more, close, rest, x.trail, "," + tail);
        ItemReads(x, x.trail, "," + tail, prefix, index, values);
        ArrayComma(tail, prefix, index + 1, after);
        ItemsRead(more, close, rest, prefix, index + 1, after);
      }
    }
  }

  lemma ItemText(x: Item, more: seq<Item>, close: string, rest: string, pad: string, stop: string)
    requires pad == if more == [] then x.trail + close else x.trail
    requires stop == if more == [] then "]" + rest else "," + (PrintItems(more) + close + "]" + rest)
    ensures PrintItems([x] + more) + close + "]" + rest == x.lead + (Print(x.value) + pad + stop)
  {
    hide Print, PrintItems;
    ItemsUnfold(x, more);
    if more == [] {
      RegroupLast(x.lead, Print(x.value), x.trail, close, "]", rest);
    } else {
      RegroupMore(x.lead, Print(x.value), x.trail, PrintItems(more), close, "]", rest);
    }
  }

  lemma ItemsUnfold(x: Item, more: seq<Item>)
    ensures PrintItems([x] + more) ==
      x.lead + Print(x.value) + x.trail + (if more == [] then "" else ",") + PrintItems(more)
    ensures more == [] ==> PrintItems(more) == ""
  {
    hide Print;
    assert ([x] + more)[1..] == more;
  }

  /** A whole configuration text: blanks, one printed tree, blanks. The reader stores
      exactly its leaves under their dotted keys and stops right after the tree. */
  lemma ConfigReadsBack(t: Json, lead: string, trail: string)
    requires Legal(t) && (t.Object? || t.Array?) && Blank(lead)
    ensures ReadJson(lead + Print(t) + trail) == Done(trail, Flat(t, false, "", map[]))
  {
    hide ObjectItems, ArrayItems, PrintMembers, PrintItems, SkipBlank;
    PrintStarts(t);
    SkipBlankIs(lead, Print(t) + trail);
    assert lead + Print(t) + trail == lead + (Print(t) + trail);
    if t.Object? {
      MembersRead(t.members, t.close, trail, "", map[]);
      assert (Print(t) + trail)[1..] == PrintMembers(t.members) + t.close + "}" + trail;
    } else {
      ItemsRead(t.items, t.close, trail, "", 0, map[]);
      assert (Print(t) + trail)[1..] == PrintItems(t.items) + t.close + "]" + trail;
    }
  }
}
