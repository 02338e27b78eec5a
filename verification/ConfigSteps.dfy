/** The configuration reader as its loops run, one iteration at a time: a budget bounds how
    deep iterations and nested calls may go, and nothing else stops a loop that does not
    move on. */
module ConfigSteps {
  import opened Basics
  import opened Text
  import opened ConfigParser

  datatype Progress = Finished(rest: string, values: Values) | OutOfBudget

  /** The loop of `parse_object`. */
  function ObjectLoop(b: nat, r: string, prefix: string, values: Values): Progress
    decreases b, 0
  {
    if r == "" then Finished("", values)
    else if b == 0 then OutOfBudget
    else
      var r1 := SkipBlank(r);
      if r1 == "" then Finished("", values)
      else if r1[0] == '}' then Finished(r1[1..], values)
      else if r1[0] == ',' then ObjectLoop(b - 1, r1[1..], prefix, values)
      else
        var (key, r2) := StringToken(r1);
        if key == "" then
          if r2 == "" then Finished("", values) else ObjectLoop(b - 1, r2[1..], prefix, values)
        else
          var r3 := SkipBlank(r2);
          var r4 := SkipBlank(if r3 != "" && r3[0] == ':' then r3[1..] else r3);
          if r4 == "" then Finished("", values)
          else
            match MemberValue(b - 1, r4, ObjectKey(prefix, key), values)
            case OutOfBudget => OutOfBudget
            case Finished(rest, stored) => ObjectLoop(b - 1, rest, prefix, stored)
  }

  /** The loop of `parse_array`. There is no case for a closing brace: it falls through to
      the scalar token, which is empty there. */
  function ArrayLoop(b: nat, r: string, prefix: string, index: nat, values: Values): Progress
    decreases b, 0
  {
    if r == "" then Finished("", values)
    else if b == 0 then OutOfBudget
    else
      var r1 := SkipBlank(r);
      if r1 == "" then Finished("", values)
      else if r1[0] == ']' then Finished(r1[1..], values)
      else if r1[0] == ',' then ArrayLoop(b - 1, r1[1..], prefix, index, values)
      else
        match ItemValue(b - 1, r1, ArrayKey(prefix, index), values)
        case OutOfBudget => OutOfBudget
        case Finished(rest, stored) => ArrayLoop(b - 1, rest, prefix, index + 1, stored)
  }

  function MemberValue(b: nat, r: string, key: string, values: Values): Progress
    requires r != ""
    decreases b, 1
  {
    if r[0] == '{' then ObjectLoop(b, r[1..], key, values)
    else if r[0] == '[' then ArrayLoop(b, r[1..], key, 0, values)
    else if r[0] == '"' then Finished(StringToken(r).1, values[key := StringToken(r).0])
    else Finished(ValueToken(r).1, values[key := StripComment(ValueToken(r).0)])
  }

  function ItemValue(b: nat, r: string, key: string, values: Values): Progress
    requires r != ""
    decreases b, 1
  {
    if r[0] == '{' then ObjectLoop(b, r[1..], key, values)
    else if r[0] == '[' then ArrayLoop(b, r[1..], key, 0, values)
    else if r[0] == '"' then Finished(StringToken(r).1, values[key := StringToken(r).0])
    else Finished(ValueToken(r).1, values[key := ValueToken(r).0])
  }

  /** `parse_json` on a fresh map. */
  function RunJson(b: nat, content: string): Progress {
    var r := SkipBlank(content);
    if r != "" && r[0] == '{' then ObjectLoop(b, r[1..], "", map[])
    else if r != "" && r[0] == '[' then ArrayLoop(b, r[1..], "", 0, map[])
    else Finished(r, map[])
  }

  /** At a closing brace the scalar token is empty and the position stays. */
  lemma StuckAtBrace(r: string)
    requires r != "" && r[0] == '}'
    ensures ValueToken(r) == ("", r) && SkipBlank(r) == r
  {
    assert Span(InScalar, r) == 0 && Span(IsBlank, r) == 0;
    assert r[..0] == "" && SkipBlank("") == "";
  }

  /** An array loop that has arrived at a closing brace never ends: every iteration stores an
      empty element under the next index and leaves the text as it is. */
  lemma {:induction false} BraceNeverEnds(b: nat, r: string, prefix: string, index: nat, values: Values)
    requires r != "" && r[0] == '}'
    ensures ArrayLoop(b, r, prefix, index, values) == OutOfBudget
  {
    hide ValueToken, SkipBlank, ArrayKey;
    StuckAtBrace(r);
    if b > 0 { BraceNeverEnds(b - 1, r, prefix, index + 1, values[ArrayKey(prefix, index) := ""]); }
  }

  // ---- one iteration of `parse_object`, for the loop and for the reader

  lemma LoopsAtEnd(b: nat, prefix: string, index: nat, values: Values)
    ensures ObjectLoop(b, "", prefix, values) == Finished("", values) == ArrayLoop(b, "", prefix, index, values)
    ensures ObjectItems("", prefix, values) == Done("", values) == ArrayItems("", prefix, index, values)
  {}

  lemma ObjectOutOfBudget(r: string, prefix: string, values: Values)
    requires r != ""
    ensures ObjectLoop(0, r, prefix, values) == OutOfBudget
  {}

  lemma ArrayOutOfBudget(r: string, prefix: string, index: nat, values: Values)
    requires r != ""
    ensures ArrayLoop(0, r, prefix, index, values) == OutOfBudget
  {}

  lemma ObjectAtEnd(b: nat, r: string, prefix: string, values: Values)
    requires r != "" && SkipBlank(r) == ""
    ensures ObjectItems(r, prefix, values) == Done("", values) &&
      ObjectLoop(b + 1, r, prefix, values) == Finished("", values)
  {
    hide StringToken, MemberValue, ReadMember;
  }

  lemma ObjectAtBrace(b: nat, r: string, prefix: string, values: Values)
    requires SkipBlank(r) != "" && SkipBlank(r)[0] == '}'
    ensures ObjectItems(r, prefix, values) == Done(SkipBlank(r)[1..], values)
    ensures ObjectLoop(b + 1, r, prefix, values) == Finished(SkipBlank(r)[1..], values)
  {
    hide StringToken, MemberValue, ReadMember;
  }

  lemma ObjectAtComma(b: nat, r: string, prefix: string, values: Values)
    requires SkipBlank(r) != "" && SkipBlank(r)[0] == ','
    ensures ObjectItems(r, prefix, values) == ObjectItems(SkipBlank(r)[1..], prefix, values)
    ensures ObjectLoop(b + 1, r, prefix, values) == ObjectLoop(b, SkipBlank(r)[1..], prefix, values)
  {
    hide StringToken, MemberValue, ReadMember;
  }

  lemma ObjectAtOther(b: nat, r: string, prefix: string, values: Values)
    requires SkipBlank(r) != "" && SkipBlank(r)[0] != ',' && SkipBlank(r)[0] != '}' && StringToken(SkipBlank(r)).0 == ""
    ensures var r2 := StringToken(SkipBlank(r)).1;
      && ObjectItems(r, prefix, values) == (if r2 == "" then Done("", values) else ObjectItems(r2[1..], prefix, values))
      && ObjectLoop(b + 1, r, prefix, values) ==
           (if r2 == "" then Finished("", values) else ObjectLoop(b, r2[1..], prefix, values))
  {
    hide StringToken, MemberValue, ReadMember;
  }

  /** The text where the value of the member starts. */
  function MemberStart(r: string): string {
    var r3 := SkipBlank(StringToken(SkipBlank(r)).1);
    SkipBlank(if r3 != "" && r3[0] == ':' then r3[1..] else r3)
  }

  lemma ObjectAtKey(b: nat, r: string, prefix: string, values: Values)
    requires SkipBlank(r) != "" && SkipBlank(r)[0] != ',' && SkipBlank(r)[0] != '}' && StringToken(SkipBlank(r)).0 != ""
    ensures MemberStart(r) == "" ==>
      ObjectItems(r, prefix, values) == Done("", values) && ObjectLoop(b + 1, r, prefix, values) == Finished("", values)
    ensures MemberStart(r) != "" ==>
      var key := ObjectKey(prefix, StringToken(SkipBlank(r)).0);
      var member, value := ReadMember(MemberStart(r), key, values), MemberValue(b, MemberStart(r), key, values);
      && ObjectItems(r, prefix, values) ==
           (if member.Endless? then Endless else ObjectItems(member.rest, prefix, member.values))
      && ObjectLoop(b + 1, r, prefix, values) ==
           (if value.OutOfBudget? then OutOfBudget else ObjectLoop(b, value.rest, prefix, value.values))
  {
    hide StringToken, MemberValue, ReadMember;
  }

  // ---- one iteration of `parse_array`

  lemma ArrayAtEnd(b: nat, r: string, prefix: string, index: nat, values: Values)
    requires r != "" && SkipBlank(r) == ""
    ensures ArrayItems(r, prefix, index, values) == Done("", values)
    ensures ArrayLoop(b + 1, r, prefix, index, values) == Finished("", values)
  {
    hide ItemValue, ReadItem;
  }

  lemma ArrayAtBracket(b: nat, r: string, prefix: string, index: nat, values: Values)
    requires SkipBlank(r) != "" && SkipBlank(r)[0] == ']'
    ensures ArrayItems(r, prefix, index, values) == Done(SkipBlank(r)[1..], values)
    ensures ArrayLoop(b + 1, r, prefix, index, values) == Finished(SkipBlank(r)[1..], values)
  {
    hide ItemValue, ReadItem;
  }

  lemma ArrayAtComma(b: nat, r: string, prefix: string, index: nat, values: Values)
    requires SkipBlank(r) != "" && SkipBlank(r)[0] == ','
    ensures ArrayItems(r, prefix, index, values) == ArrayItems(SkipBlank(r)[1..], prefix, index, values)
    ensures ArrayLoop(b + 1, r, prefix, index, values) == ArrayLoop(b, SkipBlank(r)[1..], prefix, index, values)
  {
    hide ItemValue, ReadItem;
  }

  lemma ArrayAtItem(b: nat, r: string, prefix: string, index: nat, values: Values)
    requires SkipBlank(r) != "" && SkipBlank(r)[0] != ',' && SkipBlank(r)[0] != ']'
    ensures SkipBlank(r)[0] == '}' ==> ArrayItems(r, prefix, index, values) == Endless
    ensures SkipBlank(r)[0] != '}' ==>
      var item := ReadItem(SkipBlank(r), ArrayKey(prefix, index), values);
      ArrayItems(r, prefix, index, values) ==
        if item.Endless? then Endless else ArrayItems(item.rest, prefix, index + 1, item.values)
    ensures var value := ItemValue(b, SkipBlank(r), ArrayKey(prefix, index), values);
      ArrayLoop(b + 1, r, prefix, index, values) ==
        if value.OutOfBudget? then OutOfBudget else ArrayLoop(b, value.rest, prefix, index + 1, value.values)
  {
    hide ItemValue, ReadItem;
  }

  // ---- the loops and the reader

  /** What a budgeted loop may say when the reader says this. */
  predicate Fits(spec: Parsed, run: Progress) {
    match spec
    case Endless => run.OutOfBudget?
    case Done(rest, values) => run.OutOfBudget? || run == Finished(rest, values)
  }

  lemma {:induction false} ObjectFits(b: nat, r: string, prefix: string, values: Values)
    ensures Fits(ObjectItems(r, prefix, values), ObjectLoop(b, r, prefix, values))
    ensures b >= |r| && ObjectItems(r, prefix, values).Done? ==> ObjectLoop(b, r, prefix, values).Finished?
    decreases b, 0
  {
    hide StringToken, ObjectKey, MemberValue, ReadMember, ObjectItems, ObjectLoop;
    if r == "" {
      LoopsAtEnd(b, prefix, 0, values);
    } else if b == 0 {
      ObjectOutOfBudget(r, prefix, values);
    } else {
      var r1 := SkipBlank(r);
      if r1 == "" {
        ObjectAtEnd(b - 1, r, prefix, values);
      } else if r1[0] == '}' {
        ObjectAtBrace(b - 1, r, prefix, values);
      } else if r1[0] == ',' {
        ObjectAtComma(b - 1, r, prefix, values);
        ObjectFits(b - 1, r1[1..], prefix, values);
      } else {
        var (key, r2) := StringToken(r1);
        if key == "" {
          ObjectAtOther(b - 1, r, prefix, values);
          if r2 != "" { ObjectFits(b - 1, r2[1..], prefix, values); }
        } else {
          ObjectAtKey(b - 1, r, prefix, values);
          var r4 := MemberStart(r);
          if r4 != "" {
            MemberFits(b - 1, r4, ObjectKey(prefix, key), values);
            var m := ReadMember(r4, ObjectKey(prefix, key), values);
            if m.Done? { ObjectFits(b - 1, m.rest, prefix, m.values); }
          }
        }
      }
    }
  }

  lemma {:induction false} ArrayFits(b: nat, r: string, prefix: string, index: nat, values: Values)
    ensures Fits(ArrayItems(r, prefix, index, values), ArrayLoop(b, r, prefix, index, values))
    ensures b >= |r| && ArrayItems(r, prefix, index, values).Done? ==> ArrayLoop(b, r, prefix, index, values).Finished?
    decreases b, 0
  {
    hide ArrayKey, ItemValue, ReadItem, ArrayItems, ArrayLoop;
    if r == "" {
      LoopsAtEnd(b, prefix, index, values);
    } else if b == 0 {
      ArrayOutOfBudget(r, prefix, index, values);
    } else {
      var r1 := SkipBlank(r);
      if r1 == "" {
        ArrayAtEnd(b - 1, r, prefix, index, values);
      } else if r1[0] == ']' {
        ArrayAtBracket(b - 1, r, prefix, index, values);
      } else if r1[0] == ',' {
        ArrayAtComma(b - 1, r, prefix, index, values);
        ArrayFits(b - 1, r1[1..], prefix, index, values);
      } else {
        ArrayAtItem(b - 1, r, prefix, index, values);
        if r1[0] == '}' {
          BraceNext(b, r1, prefix, index, values);
        } else {
          ItemFits(b - 1, r1, ArrayKey(prefix, index), values);
          var m := ReadItem(r1, ArrayKey(prefix, index), values);
          if m.Done? { ArrayFits(b - 1, m.rest, prefix, index + 1, m.values); }
        }
      }
    }
  }

  lemma BraceNext(b: nat, r: string, prefix: string, index: nat, values: Values)
    requires b > 0 && r != "" && r[0] == '}'
    ensures var v := ItemValue(b - 1, r, ArrayKey(prefix, index), values);
      v.Finished? && ArrayLoop(b - 1, v.rest, prefix, index + 1, v.values) == OutOfBudget
  {
    hide ValueToken, ArrayKey;
    StuckAtBrace(r);
    BraceNeverEnds(b - 1, r, prefix, index + 1, values[ArrayKey(prefix, index) := ""]);
  }

  lemma {:induction false} MemberFits(b: nat, r: string, key: string, values: Values)
    requires r != ""
    ensures Fits(ReadMember(r, key, values), MemberValue(b, r, key, values))
    ensures b + 1 >= |r| && ReadMember(r, key, values).Done? ==> MemberValue(b, r, key, values).Finished?
    decreases b, 1
  {
    hide StringToken, ValueToken, ObjectLoop, ArrayLoop, ObjectItems, ArrayItems;
    if r[0] == '{' { ObjectFits(b, r[1..], key, values); }
    if r[0] == '[' { ArrayFits(b, r[1..], key, 0, values); }
  }

  lemma {:induction false} ItemFits(b: nat, r: string, key: string, values: Values)
    requires r != "" && r[0] != ',' && r[0] != ']' && r[0] != '}' && !IsBlank(r[0])
    ensures Fits(ReadItem(r, key, values), ItemValue(b, r, key, values))
    ensures b + 1 >= |r| && ReadItem(r, key, values).Done? ==> ItemValue(b, r, key, values).Finished?
    decreases b, 1
  {
    hide StringToken, ValueToken, ObjectLoop, ArrayLoop, ObjectItems, ArrayItems;
    if r[0] == '{' { ObjectFits(b, r[1..], key, values); }
    if r[0] == '[' { ArrayFits(b, r[1..], key, 0, values); }
  }

  lemma RunFits(b: nat, content: string)
    ensures Fits(ReadJson(content), RunJson(b, content))
    ensures b >= |content| && ReadJson(content).Done? ==> RunJson(b, content).Finished?
  {
    hide ObjectLoop, ArrayLoop, ObjectItems, ArrayItems;
    var r := SkipBlank(content);
    if r != "" && r[0] == '{' { ObjectFits(b, r[1..], "", map[]); }
    if r != "" && r[0] == '[' { ArrayFits(b, r[1..], "", 0, map[]); }
  }

  /** The reader's verdict is about the loops themselves: it says that there is no end exactly
      when no budget is enough, and otherwise every budget of the length of the text gives the
      result it says. */
  lemma EndlessMeansNoBudget(content: string)
    ensures ReadJson(content).Endless? <==> forall b: nat :: RunJson(b, content).OutOfBudget?
    ensures ReadJson(content).Done? ==>
      forall b: nat | b >= |content| ::
        RunJson(b, content) == Finished(ReadJson(content).rest, ReadJson(content).values)
  {
    hide RunJson, ReadJson;
    forall b: nat
      ensures Fits(ReadJson(content), RunJson(b, content))
      ensures b >= |content| && ReadJson(content).Done? ==> RunJson(b, content).Finished?
    {
      RunFits(b, content);
    }
    if ReadJson(content).Done? { assert RunJson(|content|, content).Finished?; }
  }
}
