/** Exactly when the configuration reader stops: one left-to-right scan with a stack of the
    brackets still open decides it. */
module ConfigTermination {
  import opened Basics
  import opened Text
  import opened ConfigParser
  import opened ConfigSteps
  import opened ConfigLoader

  /** The scan meets a closing brace while the innermost open bracket is a square one and
      an element is due. `open` lists the open brackets, innermost last. */
  predicate BraceInArray(r: string, open: seq<char>)
    decreases |r|, 1
  {
    if open == [] then false
    else
      var inner, outer := open[|open| - 1], open[..|open| - 1];
      var r1 := SkipBlank(r);
      if r1 == "" then false
      else if r1[0] == ',' then BraceInArray(r1[1..], open)
      else if inner == '[' then
        if r1[0] == ']' then BraceInArray(r1[1..], outer)
        else r1[0] == '}' || AfterItem(r1, open)
      else if r1[0] == '}' then BraceInArray(r1[1..], outer)
      else
        var (key, r2) := StringToken(r1);
        if key == "" then r2 != "" && BraceInArray(r2[1..], open)
        else
          var r3 := SkipBlank(r2);
          var r4 := SkipBlank(if r3 != "" && r3[0] == ':' then r3[1..] else r3);
          r4 != "" && AfterMember(r4, open)
  }

  predicate AfterMember(r: string, open: seq<char>)
    requires r != ""
    decreases |r|, 2
  {
    if r[0] == '{' || r[0] == '[' then BraceInArray(r[1..], open + [r[0]])
    else if r[0] == '"' then BraceInArray(StringToken(r).1, open)
    else BraceInArray(ValueToken(r).1, open)
  }

  predicate AfterItem(r: string, open: seq<char>)
    requires r != "" && r[0] != ',' && r[0] != ']' && r[0] != '}' && !IsBlank(r[0])
    decreases |r|, 0
  {
    if r[0] == '{' || r[0] == '[' then BraceInArray(r[1..], open + [r[0]])
    else if r[0] == '"' then BraceInArray(StringToken(r).1, open)
    else BraceInArray(ValueToken(r).1, open)
  }

  /** What the scan says after a bracketed value has been read. */
  predicate Then(p: Parsed, open: seq<char>) {
    match p
    case Endless => true
    case Done(rest, _) => BraceInArray(rest, open)
  }

  lemma EndOfText(open: seq<char>)
    ensures !BraceInArray("", open)
  {}

  lemma {:induction false} ObjectScan(r: string, open: seq<char>, prefix: string, values: Values)
    ensures BraceInArray(r, open + ['{']) <==> Then(ObjectItems(r, prefix, values), open)
    decreases |r|, 1
  {
    hide StringToken, ValueToken;
    var all := open + ['{'];
    assert all[|all| - 1] == '{' && all[..|all| - 1] == open;
    var r1 := SkipBlank(r);
    EndOfText(open);
    if r1 != "" && r1[0] != '}' {
      if r1[0] == ',' {
        ObjectScan(r1[1..], open, prefix, values);
      } else {
        var (key, r2) := StringToken(r1);
        if key == "" {
          if r2 != "" { ObjectScan(r2[1..], open, prefix, values); }
        } else {
          var r3 := SkipBlank(r2);
          var r4 := SkipBlank(if r3 != "" && r3[0] == ':' then r3[1..] else r3);
          if r4 != "" {
            MemberScan(r4, open, prefix, ObjectKey(prefix, key), values);
          }
        }
      }
    }
  }

  lemma {:induction false} MemberScan(r: string, open: seq<char>, prefix: string, key: string, values: Values)
    requires r != ""
    ensures var p := ReadMember(r, key, values);
      AfterMember(r, open + ['{']) <==> p.Endless? || Then(ObjectItems(p.rest, prefix, p.values), open)
    decreases |r|, 2
  {
    hide StringToken, ValueToken, BraceInArray, ObjectItems, ArrayItems;
    var all := open + ['{'];
    var p := ReadMember(r, key, values);
    if r[0] == '{' {
      ObjectScan(r[1..], all, key, values);
    } else if r[0] == '[' {
      ArrayScan(r[1..], all, key, 0, values);
    }
    if p.Done? {
      ObjectScan(p.rest, open, prefix, p.values);
    }
  }

  lemma {:induction false} ArrayScan(r: string, open: seq<char>, prefix: string, index: nat, values: Values)
    ensures BraceInArray(r, open + ['[']) <==> Then(ArrayItems(r, prefix, index, values), open)
    decreases |r|, 1
  {
    hide StringToken, ValueToken;
    var all := open + ['['];
    assert all[|all| - 1] == '[' && all[..|all| - 1] == open;
    var r1 := SkipBlank(r);
    EndOfText(open);
    if r1 != "" && r1[0] != ']' && r1[0] != '}' {
      if r1[0] == ',' {
        ArrayScan(r1[1..], open, prefix, index, values);
      } else {
        ItemScan(r1, open, prefix, index, values);
      }
    }
  }

  lemma {:induction false} ItemScan(r: string, open: seq<char>, prefix: string, index: nat, values: Values)
    requires r != "" && r[0] != ',' && r[0] != ']' && r[0] != '}' && !IsBlank(r[0])
    ensures var p := ReadItem(r, ArrayKey(prefix, index), values);
      AfterItem(r, open + ['[']) <==> p.Endless? || Then(ArrayItems(p.rest, prefix, index + 1, p.values), open)
    decreases |r|, 0
  {
    hide StringToken, ValueToken, BraceInArray, ObjectItems, ArrayItems;
    var all := open + ['['];
    var key := ArrayKey(prefix, index);
    var p := ReadItem(r, key, values);
    if r[0] == '{' {
      ObjectScan(r[1..], all, key, values);
    } else if r[0] == '[' {
      ArrayScan(r[1..], all, key, 0, values);
    }
    if p.Done? {
      ArrayScan(p.rest, open, prefix, index + 1, p.values);
    }
  }

  /** The reader runs forever exactly when the scan meets a brace inside an array. */
  lemma EndlessIff(content: string)
    ensures var r := SkipBlank(content);
      ReadJson(content).Endless? <==> r != "" && (r[0] == '{' || r[0] == '[') && BraceInArray(r[1..], [r[0]])
  {
    hide BraceInArray, ObjectItems, ArrayItems;
    var r := SkipBlank(content);
    if r != "" && r[0] == '{' {
      ObjectScan(r[1..], [], "", map[]);
      assert [] + ['{'] == ['{'];
    } else if r != "" && r[0] == '[' {
      ArrayScan(r[1..], [], "", 0, map[]);
      assert [] + ['['] == ['['];
    }
    if ReadJson(content).Done? {
      NothingOpen(ReadJson(content).rest);
    }
  }

  lemma NothingOpen(r: string)
    ensures !BraceInArray(r, [])
  {}

  /** The loops themselves run out of every budget exactly when the scan meets a closing brace
      inside an array; otherwise they end within the length of the text. */
  lemma NoBudgetIff(content: string)
    ensures var r := SkipBlank(content);
      (forall b: nat :: RunJson(b, content).OutOfBudget?) <==>
        r != "" && (r[0] == '{' || r[0] == '[') && BraceInArray(r[1..], [r[0]])
    ensures (exists b: nat :: RunJson(b, content).Finished?) ==> RunJson(|content|, content).Finished?
  {
    hide RunJson, ReadJson, BraceInArray;
    EndlessIff(content);
    EndlessMeansNoBudget(content);
  }

  // ---- the shortest configurations that are never loaded

  lemma NoBlanks(r: string)
    requires r != "" && !IsBlank(r[0])
    ensures SkipBlank(r) == r
  {}

  ghost predicate OnlyBraces(open: seq<char>) { forall i | 0 <= i < |open| :: open[i] == '{' }

  lemma KeyTakesThree(r: string)
    requires StringToken(r).0 != "" && StringToken(r).1 != ""
    ensures |StringToken(r).1| + 3 <= |r|
  {
    if |r| > 1 { BodyTakesOne(r[1..]); }
  }

  lemma BodyTakesOne(r: string)
    requires StringBody(r).1 != ""
    ensures |StringBody(r).1| + |StringBody(r).0| + 1 <= |r|
  {}

  /** Before a scan that has met no square bracket can end badly, it has to read a key of three
      characters, a square bracket and a brace. */
  lemma {:induction false} ScanNeedsFive(r: string, open: seq<char>)
    requires BraceInArray(r, open)
    ensures |r| >= 1 && (OnlyBraces(open) ==> |r| >= 5)
    decreases |r|, 1
  {
    hide StringToken, ValueToken;
    var inner, outer := open[|open| - 1], open[..|open| - 1];
    var r1 := SkipBlank(r);
    if r1[0] == ',' {
      ScanNeedsFive(r1[1..], open);
    } else if inner == '[' {
    } else if r1[0] == '}' {
      ScanNeedsFive(r1[1..], outer);
    } else {
      var (key, r2) := StringToken(r1);
      if key == "" {
        ScanNeedsFive(r2[1..], open);
      } else {
        var r3 := SkipBlank(r2);
        var r4 := SkipBlank(if r3 != "" && r3[0] == ':' then r3[1..] else r3);
        KeyTakesThree(r1);
        MemberNeeds(r4, open);
      }
    }
  }

  lemma {:induction false} MemberNeeds(r: string, open: seq<char>)
    requires r != "" && AfterMember(r, open)
    ensures OnlyBraces(open) && r[0] != '[' ==> |r| >= 5
    ensures r[0] == '[' ==> |r| >= 2
    decreases |r|, 2
  {
    hide StringToken, ValueToken, BraceInArray;
    if r[0] == '{' || r[0] == '[' {
      ScanNeedsFive(r[1..], open + [r[0]]);
    } else if r[0] == '"' {
      ScanNeedsFive(StringToken(r).1, open);
    } else {
      ScanNeedsFive(ValueToken(r).1, open);
    }
  }

  /** `{"a"[}` is never finished, and no shorter configuration is. */
  lemma ShortestEndless(content: string)
    ensures forall b: nat :: RunJson(b, "{\"a\"[}").OutOfBudget?
    ensures SkipBlank(content) != "" && SkipBlank(content)[0] == '{' &&
      (forall b: nat :: RunJson(b, content).OutOfBudget?)
      ==> |content| >= 6
  {
    hide RunJson, BraceInArray;
    NoBudgetIff("{\"a\"[}");
    NoBlanks("{\"a\"[}");
    assert "{\"a\"[}"[1..] == "\"a\"[}";
    KeyThenBracket();
    NoBudgetIff(content);
    var r := SkipBlank(content);
    if r != "" && r[0] == '{' && BraceInArray(r[1..], [r[0]]) { ScanNeedsFive(r[1..], ['{']); }
  }

  lemma ReadsKey()
    ensures StringToken("\"a\"[}") == ("a", "[}")
  {
    var r := "\"a\"[}";
    assert r[1..] == "a\"[}" && "a\"[}"[1..] == "\"[}" && "\"[}"[1..] == "[}";
    assert StringBody("\"[}") == ("", "[}");
    assert ['a'] + "" == "a";
    assert StringBody("a\"[}") == ("a", "[}");
  }

  lemma BracketThenBrace()
    ensures AfterMember("[}", ['{'])
  {
    hide StringToken, ValueToken;
    NoBlanks("}");
    assert "[}"[1..] == "}" && ['{'] + ['['] == ['{', '['];
    assert BraceInArray("}", ['{', '[']);
  }

  lemma KeyThenBracket()
    ensures BraceInArray("\"a\"[}", ['{'])
  {
    hide StringToken, AfterMember, AfterItem;
    NoBlanks("\"a\"[}");
    NoBlanks("[}");
    ReadsKey();
    BracketThenBrace();
  }

  /** The loader is still at it after any number of steps. */
  method NeverLoaded(loader: Loader, budget: nat) returns (ok: bool, stopped: bool)
    modifies loader
    ensures stopped
  {
    hide ReadJson, RunJson;
    ShortestEndless("");
    EndlessMeansNoBudget("{\"a\"[}");
    NoBlanks("{\"a\"[}");
    ok, stopped := loader.LoadText("{\"a\"[}", budget);
  }
}
