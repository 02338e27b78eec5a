/** The JSON reader of config_loader.hpp on arbitrary text. A position in the text is the
    text still to be read. The one way the reader can run forever, a closing brace met
    inside an array, is a result of its own. */
module ConfigParser {
  import opened Basics
  import opened Text

  type Values = map<string, string>

  predicate IsBlank(c: char) { c == ' ' || c == '\t' || c == '\r' || c == '\n' }
  predicate InScalar(c: char) { c != ',' && c != '}' && c != ']' && c != '\n' && c != '\r' }

  function SkipBlank(r: string): (rest: string)
    ensures |rest| <= |r| && (rest != "" ==> !IsBlank(rest[0]))
  {
    r[Span(IsBlank, r)..]
  }

  /** Drops blanks at the end. */
  function TrimEnd(s: string): string {
    if s == "" || !IsBlank(s[|s| - 1]) then s else TrimEnd(s[..|s| - 1])
  }

  function Trim(s: string): string { TrimEnd(SkipBlank(s)) }

  /** The characters up to the closing quote; a backslash takes the next one as it is. */
  function StringBody(r: string): (result: (string, string))
    ensures |result.1| <= |r|
  {
    if r == "" then ("", "")
    else if r[0] == '"' then ("", r[1..])
    else if r[0] == '\\' && |r| > 1 then
      var (text, rest) := StringBody(r[2..]);
      ([r[1]] + text, rest)
    else
      var (text, rest) := StringBody(r[1..]);
      ([r[0]] + text, rest)
  }

  function StringToken(r: string): (result: (string, string))
    ensures |result.1| <= |r| && (r != "" && r[0] == '"' ==> |result.1| < |r|)
    ensures result.0 != "" ==> |result.1| < |r|
  {
    if r == "" || r[0] != '"' then ("", r) else StringBody(r[1..])
  }

  function ValueToken(r: string): (result: (string, string))
    ensures |result.1| <= |r| && (r != "" && InScalar(r[0]) ==> |result.1| < |r|)
  {
    var n := Span(InScalar, r);
    (Trim(r[..n]), r[n..])
  }

  /** Position of the first `//`, or the length when there is none. */
  function CommentAt(s: string): (n: nat)
    ensures n <= |s|
  {
    if s == "" || "//" <= s then 0 else 1 + CommentAt(s[1..])
  }

  function StripComment(s: string): string {
    if CommentAt(s) < |s| then Trim(s[..CommentAt(s)]) else s
  }

  function ObjectKey(prefix: string, key: string): string { if prefix == "" then key else prefix + "." + key }
  function ArrayKey(prefix: string, index: nat): string { prefix + "." + PrintInt(index) }

  /** Where reading stopped and what has been stored, or no end at all. */
  datatype Parsed = Done(rest: string, values: Values) | Endless

  function ReadObject(r: string, prefix: string, values: Values): (p: Parsed)
    ensures p.Done? ==> |p.rest| <= |r| && (r != "" && r[0] == '{' ==> |p.rest| < |r|)
    decreases |r|, 2
  {
    if r == "" || r[0] != '{' then Done(r, values) else ObjectItems(r[1..], prefix, values)
  }

  /** The loop of `parse_object`. */
  function ObjectItems(r: string, prefix: string, values: Values): (p: Parsed)
    ensures p.Done? ==> |p.rest| <= |r|
    decreases |r|, 4
  {
    var r1 := SkipBlank(r);
    if r1 == "" then Done("", values)
    else if r1[0] == '}' then Done(r1[1..], values)
    else if r1[0] == ',' then ObjectItems(r1[1..], prefix, values)
    else
      var (key, r2) := StringToken(r1);
      if key == "" then
        if r2 == "" then Done("", values) else ObjectItems(r2[1..], prefix, values)
      else
        var r3 := SkipBlank(r2);
        var r4 := SkipBlank(if r3 != "" && r3[0] == ':' then r3[1..] else r3);
        if r4 == "" then Done("", values)
        else
          var member := ReadMember(r4, ObjectKey(prefix, key), values);
          if member.Endless? then Endless else ObjectItems(member.rest, prefix, member.values)
  }

  /** The value of one member. */
  function ReadMember(r: string, key: string, values: Values): (p: Parsed)
    requires r != ""
    ensures p.Done? ==> |p.rest| <= |r|
    decreases |r|, 3
  {
    if r[0] == '{' then ReadObject(r, key, values)
    else if r[0] == '[' then ReadArray(r, key, values)
    else if r[0] == '"' then
      var (text, rest) := StringToken(r);
      Done(rest, values[key := text])
    else
      var (token, rest) := ValueToken(r);
      Done(rest, values[key := StripComment(token)])
  }

  function ReadArray(r: string, prefix: string, values: Values): (p: Parsed)
    ensures p.Done? ==> |p.rest| <= |r| && (r != "" && r[0] == '[' ==> |p.rest| < |r|)
    decreases |r|, 2
  {
    if r == "" || r[0] != '[' then Done(r, values) else ArrayItems(r[1..], prefix, 0, values)
  }

  /** The loop of `parse_array`. */
  function ArrayItems(r: string, prefix: string, index: nat, values: Values): (p: Parsed)
    ensures p.Done? ==> |p.rest| <= |r|
    decreases |r|, 4
  {
    var r1 := SkipBlank(r);
    if r1 == "" then Done("", values)
    else if r1[0] == ']' then Done(r1[1..], values)
    else if r1[0] == ',' then ArrayItems(r1[1..], prefix, index, values)
    else if r1[0] == '}' then Endless
    else
      var item := ReadItem(r1, ArrayKey(prefix, index), values);
      if item.Endless? then Endless else ArrayItems(item.rest, prefix, index + 1, item.values)
  }

  /** The value of one element: like a member, but comments are kept. */
  function ReadItem(r: string, key: string, values: Values): (p: Parsed)
    requires r != "" && r[0] != ',' && r[0] != ']' && r[0] != '}' && !IsBlank(r[0])
    ensures p.Done? ==> |p.rest| < |r|
    decreases |r|, 3
  {
    if r[0] == '{' then ReadObject(r, key, values)
    else if r[0] == '[' then ReadArray(r, key, values)
    else if r[0] == '"' then
      var (text, rest) := StringToken(r);
      Done(rest, values[key := text])
    else
      var (token, rest) := ValueToken(r);
      Done(rest, values[key := token])
  }

  /** `parse_json` on a fresh map: an object, an array, or nothing. */
  function ReadJson(content: string): Parsed {
    var r := SkipBlank(content);
    if r != "" && r[0] == '{' then ReadObject(r, "", map[])
    else if r != "" && r[0] == '[' then ReadArray(r, "", map[])
    else Done(r, map[])
  }
}
