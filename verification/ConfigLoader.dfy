/** The loader object: positions advance through the text and values accumulate. Every
    method is proved equal to the reader on the text still to be read. */
module ConfigLoader {
  import opened Basics
  import opened Text
  import opened ConfigParser
  import opened ConfigSteps

  /** The text from a position on; a position may run past the end. */
  function Tail(s: string, pos: nat): string { if pos <= |s| then s[pos..] else "" }

  lemma TailNext(s: string, pos: nat)
    ensures pos < |s| ==> Tail(s, pos) != "" && Tail(s, pos)[0] == s[pos]
    ensures Tail(s, pos + 1) == if Tail(s, pos) == "" then "" else Tail(s, pos)[1..]
    ensures Tail(s, pos) == "" <==> pos >= |s|
  {}

  lemma SkipOne(r: string)
    requires r != ""
    ensures SkipBlank(r) == if IsBlank(r[0]) then SkipBlank(r[1..]) else r
  {}

  method SkipWs(s: string, pos: nat) returns (p: nat)
    ensures Tail(s, p) == SkipBlank(Tail(s, pos)) && pos <= p && (pos <= |s| ==> p <= |s|)
  {
    hide Tail, SkipBlank;
    p := pos;
    TailNext(s, p);
    while p < |s| && IsBlank(s[p])
      invariant pos <= p && (pos <= |s| ==> p <= |s|)
      invariant SkipBlank(Tail(s, pos)) == SkipBlank(Tail(s, p))
      decreases |s| - p
    {
      TailNext(s, p);
      SkipOne(Tail(s, p));
      p := p + 1;
    }
    TailNext(s, p);
    if p < |s| {
      SkipOne(Tail(s, p));
    } else {
      SkipNothing();
    }
  }

  lemma SkipNothing()
    ensures SkipBlank("") == ""
  {}

  lemma BodyNext(s: string, p: nat, text: string)
    requires p < |s| && s[p] != '"'
    ensures var q := if s[p] == '\\' && p + 1 < |s| then p + 1 else p;
      && text + StringBody(s[p..]).0 == text + [s[q]] + StringBody(s[q + 1..]).0
      && StringBody(s[p..]).1 == StringBody(s[q + 1..]).1
  {
    var q := if s[p] == '\\' && p + 1 < |s| then p + 1 else p;
    assert s[p..][q - p + 1..] == s[q + 1..];
    var body := StringBody(s[q + 1..]).0;
    assert text + ([s[q]] + body) == text + [s[q]] + body;
  }

  /** At the closing quote, or at the end of the text, nothing is added. */
  lemma BodyEnd(s: string, q: nat)
    requires q <= |s| && (q == |s| || s[q] == '"')
    ensures StringBody(s[q..]) == ("", if q == |s| then "" else s[q + 1..])
  {
    if q < |s| { assert s[q..][1..] == s[q + 1..]; }
  }

  lemma TokenIsBody(s: string, pos: nat)
    requires pos < |s| && s[pos] == '"'
    ensures StringToken(s[pos..]) == StringBody(s[pos + 1..])
  {
    hide StringBody;
    assert s[pos..][1..] == s[pos + 1..];
  }

  method ParseStringToken(s: string, pos: nat) returns (text: string, p: nat)
    ensures (text, Tail(s, p)) == StringToken(Tail(s, pos))
    ensures pos <= p && (pos <= |s| ==> p <= |s|)
  {
    hide StringBody;
    text, p := "", pos;
    if p >= |s| || s[p] != '"' { return; }
    TokenIsBody(s, pos);
    hide StringToken;
    p := p + 1;
    ghost var goal := StringBody(s[p..]);
    assert "" + goal.0 == goal.0;
    while p < |s| && s[p] != '"'
      invariant pos < p <= |s|
      invariant goal.0 == text + StringBody(s[p..]).0 && goal.1 == StringBody(s[p..]).1
    {
      BodyNext(s, p, text);
      if s[p] == '\\' && p + 1 < |s| {
        p := p + 1;
        text := text + [s[p]];
      } else {
        text := text + [s[p]];
      }
      p := p + 1;
    }
    BodyEnd(s, p);
    assert text + "" == text;
    if p < |s| { p := p + 1; }
  }

  method ParseValueToken(s: string, pos: nat) returns (text: string, p: nat)
    requires pos <= |s|
    ensures (text, Tail(s, p)) == ValueToken(Tail(s, pos)) && pos <= p <= |s|
  {
    var result := "";
    p := pos;
    while p < |s| && InScalar(s[p])
      invariant pos <= p <= |s| && result == s[pos..p]
      invariant Span(InScalar, s[pos..]) == p - pos + Span(InScalar, s[p..])
    {
      assert s[p..][1..] == s[p + 1..];
      result := result + [s[p]];
      p := p + 1;
    }
    assert s[pos..][..p - pos] == s[pos..p] && s[pos..][p - pos..] == s[p..];
    text := Trim(result);
  }

  lemma {:induction false} TrimEndStarts(s: string)
    requires s != "" && !IsBlank(s[0])
    ensures TrimEnd(s) != "" && TrimEnd(s)[0] == s[0]
  {
    if IsBlank(s[|s| - 1]) {
      TrimEndStarts(s[..|s| - 1]);
    }
  }

  lemma TrimStarts(s: string)
    ensures Trim(s) == "" <==> SkipBlank(s) == ""
    ensures Trim(s) != "" ==> Trim(s)[0] == SkipBlank(s)[0]
  {
    hide SkipBlank;
    if SkipBlank(s) != "" {
      TrimEndStarts(SkipBlank(s));
    }
  }

  class Loader {
    var values: Values

    /** The method and the loop function agree on where they stop and what they stored, or
        that the budget ran out. */
    ghost predicate Agrees(run: Progress, s: string, p: nat, stopped: bool)
      reads this
    {
      match run
      case OutOfBudget => stopped
      case Finished(rest, stored) => !stopped && Tail(s, p) == rest && values == stored
    }

    /** `load_impl` after the file has been read: text that is not an object changes
        nothing; otherwise the map becomes what the reader stores. A text on which the reader
        has no end exhausts every budget, and any other ends within its own length. */
    method LoadText(content: string, budget: nat) returns (ok: bool, stopped: bool)
      modifies this
      ensures SkipBlank(content) == "" || SkipBlank(content)[0] != '{' ==>
        !ok && !stopped && values == old(values)
      ensures SkipBlank(content) != "" && SkipBlank(content)[0] == '{' ==>
        match ReadJson(content)
        case Endless => stopped
        case Done(_, stored) =>
          (budget >= |content| ==> !stopped) && (!stopped ==> values == stored && (ok <==> stored != map[]))
    {
      hide ObjectLoop, ArrayLoop, SkipBlank, ReadJson;
      TrimStarts(content);
      var trimmed := Trim(content);
      if trimmed == "" || trimmed[0] != '{' { return false, false; }
      values := map[];
      assert Tail(content, 0) == content;
      var p := SkipWs(content, 0);
      TailNext(content, p);
      RunFits(budget, content);
      p, stopped := ParseObject(content, p, "", budget);
      ok := !stopped && values != map[];
    }

    method ParseObject(s: string, pos: nat, prefix: string, budget: nat) returns (p: nat, stopped: bool)
      requires pos <= |s|
      modifies this
      ensures pos < |s| && s[pos] == '{' ==>
        Agrees(ObjectLoop(budget, Tail(s, pos + 1), prefix, old(values)), s, p, stopped)
      ensures pos == |s| || s[pos] != '{' ==> p == pos && !stopped && values == old(values)
      decreases budget, 1
    {
      hide StringToken, ValueToken, SkipBlank, ObjectKey, ObjectLoop, MemberValue, Tail;
      p, stopped := pos, false;
      if p >= |s| || s[p] != '{' { return; }
      p := p + 1;
      ghost var goal := ObjectLoop(budget, Tail(s, pos + 1), prefix, values);
      var b: nat := budget;
      while p < |s|
        invariant !stopped && b <= budget && goal == ObjectLoop(b, Tail(s, p), prefix, values)
        decreases b
      {
        ghost var r := Tail(s, p);
        TailNext(s, p);
        if b == 0 {
          ObjectOutOfBudget(r, prefix, values);
          return p, true;
        }
        b := b - 1;
        p := SkipWs(s, p);
        TailNext(s, p);
        if p >= |s| {
          ObjectAtEnd(b, r, prefix, values);
          return;
        }
        if s[p] == '}' {
          ObjectAtBrace(b, r, prefix, values);
          p := p + 1;
          return;
        }
        if s[p] == ',' {
          ObjectAtComma(b, r, prefix, values);
          p := p + 1;
          continue;
        }
        var key;
        key, p := ParseStringToken(s, p);
        TailNext(s, p);
        if key == "" {
          ObjectAtOther(b, r, prefix, values);
          LoopsAtEnd(b, prefix, 0, values);
          p := p + 1;
          continue;
        }
        p := SkipWs(s, p);
        TailNext(s, p);
        if p < |s| && s[p] == ':' {
          p := p + 1;
        }
        p := SkipWs(s, p);
        TailNext(s, p);
        ObjectAtKey(b, r, prefix, values);
        if p >= |s| { return; }
        p, stopped := ParseMember(s, p, ObjectKey(prefix, key), b);
        if stopped { return; }
      }
      TailNext(s, p);
      LoopsAtEnd(b, prefix, 0, values);
    }

    method ParseMember(s: string, pos: nat, key: string, budget: nat) returns (p: nat, stopped: bool)
      requires pos < |s|
      modifies this
      ensures Tail(s, pos) != "" && Agrees(MemberValue(budget, Tail(s, pos), key, old(values)), s, p, stopped)
      decreases budget, 2
    {
      hide StringToken, ValueToken, Tail, ObjectLoop, ArrayLoop;
      TailNext(s, pos);
      stopped := false;
      var text;
      if s[pos] == '{' {
        p, stopped := ParseObject(s, pos, key, budget);
      } else if s[pos] == '[' {
        p, stopped := ParseArray(s, pos, key, budget);
      } else if s[pos] == '"' {
        text, p := ParseStringToken(s, pos);
        values := values[key := text];
      } else {
        text, p := ParseValueToken(s, pos);
        values := values[key := StripComment(text)];
      }
    }

    /** The loop as it stands: nothing in it looks for a closing brace. */
    method ParseArray(s: string, pos: nat, prefix: string, budget: nat) returns (p: nat, stopped: bool)
      requires pos <= |s|
      modifies this
      ensures pos < |s| && s[pos] == '[' ==>
        Agrees(ArrayLoop(budget, Tail(s, pos + 1), prefix, 0, old(values)), s, p, stopped)
      ensures pos == |s| || s[pos] != '[' ==> p == pos && !stopped && values == old(values)
      decreases budget, 1
    {
      hide SkipBlank, ArrayKey, ArrayLoop, ItemValue, Tail;
      p, stopped := pos, false;
      if p >= |s| || s[p] != '[' { return; }
      p := p + 1;
      ghost var goal := ArrayLoop(budget, Tail(s, pos + 1), prefix, 0, values);
      var b: nat, index := budget, 0;
      while p < |s|
        invariant !stopped && b <= budget && goal == ArrayLoop(b, Tail(s, p), prefix, index, values)
        decreases b
      {
        ghost var r := Tail(s, p);
        TailNext(s, p);
        if b == 0 {
          ArrayOutOfBudget(r, prefix, index, values);
          return p, true;
        }
        b := b - 1;
        p := SkipWs(s, p);
        TailNext(s, p);
        if p >= |s| {
          ArrayAtEnd(b, r, prefix, index, values);
          return;
        }
        if s[p] == ']' {
          ArrayAtBracket(b, r, prefix, index, values);
          p := p + 1;
          return;
        }
        if s[p] == ',' {
          ArrayAtComma(b, r, prefix, index, values);
          p := p + 1;
          continue;
        }
        ArrayAtItem(b, r, prefix, index, values);
        p, stopped := ParseItem(s, p, ArrayKey(prefix, index), b);
        if stopped { return; }
        index := index + 1;
      }
      TailNext(s, p);
      LoopsAtEnd(b, prefix, index, values);
    }

    method ParseItem(s: string, pos: nat, key: string, budget: nat) returns (p: nat, stopped: bool)
      requires pos < |s|
      modifies this
      ensures Tail(s, pos) != "" && Agrees(ItemValue(budget, Tail(s, pos), key, old(values)), s, p, stopped)
      decreases budget, 2
    {
      hide StringToken, ValueToken, Tail, ObjectLoop, ArrayLoop;
      TailNext(s, pos);
      stopped := false;
      var text;
      if s[pos] == '{' {
        p, stopped := ParseObject(s, pos, key, budget);
      } else if s[pos] == '[' {
        p, stopped := ParseArray(s, pos, key, budget);
      } else if s[pos] == '"' {
        text, p := ParseStringToken(s, pos);
        values := values[key := text];
      } else {
        text, p := ParseValueToken(s, pos);
        values := values[key := text];
      }
    }
  }
}
