/** The text conventions every component shares: C++ stream extraction (`>>`), `getline`,
    `std::to_string` and `std::stoll`. A stream is the text not yet consumed. Numbers are
    unbounded: every value the program prints fits the type it is read back into. */
module Text {
  import opened Basics

  predicate IsSpace(c: char) { c in " \t\n\r" || c == 11 as char || c == 12 as char }
  predicate IsGraph(c: char) { !IsSpace(c) }
  predicate IsDigit(c: char) { '0' <= c <= '9' }
  predicate NotNewline(c: char) { c != '\n' }

  /** Non-empty and free of white space, so that `>>` reads it as one token. */
  predicate IsToken(s: string) { s != "" && All(IsGraph, s) }

  predicate All(p: char -> bool, s: string) { forall i | 0 <= i < |s| :: p(s[i]) }

  /** Length of the longest prefix whose characters all satisfy `p`. */
  function Span(p: char -> bool, s: string): (n: nat)
    ensures n <= |s| && All(p, s[..n]) && (n < |s| ==> !p(s[n]))
  {
    if s == "" || !p(s[0]) then 0 else 1 + Span(p, s[1..])
  }

  lemma SpanIs(p: char -> bool, a: string, b: string)
    requires All(p, a) && (b != "" ==> !p(b[0]))
    ensures Span(p, a + b) == |a| && (a + b)[..|a|] == a && (a + b)[|a|..] == b
  {
    if a == "" {
      assert a + b == b;
    } else {
      assert (a + b)[1..] == a[1..] + b;
      SpanIs(p, a[1..], b);
    }
  }

  // ---- white-space separated tokens

  function SkipSpace(s: string): string { s[Span(IsSpace, s)..] }

  /** `stream >> string`: the token and the rest of the stream. */
  function ReadToken(s: string): Option<(string, string)> {
    var t := SkipSpace(s);
    var n := Span(IsGraph, t);
    if t == "" then None else Some((t[..n], t[n..]))
  }

  /** A token after optional white space, followed by white space or the end. */
  lemma ReadTokenIs(pad: string, token: string, rest: string)
    requires All(IsSpace, pad) && IsToken(token) && (rest != "" ==> IsSpace(rest[0]))
    ensures ReadToken(pad + token + rest) == Some((token, rest))
  {
    assert pad + token + rest == pad + (token + rest);
    SpanIs(IsSpace, pad, token + rest);
    SpanIs(IsGraph, token, rest);
  }

  lemma ReadTokenEnd(pad: string)
    requires All(IsSpace, pad)
    ensures ReadToken(pad) == None
  {
    SpanIs(IsSpace, pad, "");
    assert pad + "" == pad;
  }

  /** What repeated `stream >> string` reads. */
  function Tokens(s: string): seq<string>
    decreases |s|
  {
    match ReadToken(s)
    case None => []
    case Some((token, rest)) => [token] + Tokens(rest)
  }

  lemma TokensCons(pad: string, token: string, rest: string)
    requires All(IsSpace, pad) && IsToken(token) && (rest != "" ==> IsSpace(rest[0]))
    ensures Tokens(pad + token + rest) == [token] + Tokens(rest)
  {
    ReadTokenIs(pad, token, rest);
  }

  /** Words each after a single space. */
  function Spaced(ws: seq<string>): string {
    if ws == [] then "" else " " + ws[0] + Spaced(ws[1..])
  }

  lemma SpacedStart(ws: seq<string>)
    ensures Spaced(ws) != "" ==> IsSpace(Spaced(ws)[0])
  {}

  function NonEmpty(ws: seq<string>): seq<string> {
    if ws == [] then []
    else (if ws[0] == "" then [] else [ws[0]]) + NonEmpty(ws[1..])
  }

  /** Tokens come back as written; an empty word leaves no trace. */
  lemma {:induction false} TokensOfSpaced(pad: string, ws: seq<string>)
    requires All(IsSpace, pad)
    requires forall i | 0 <= i < |ws| :: ws[i] == "" || IsToken(ws[i])
    ensures Tokens(pad + Spaced(ws)) == NonEmpty(ws)
    decreases |ws|
  {
    hide Tokens, IsToken, IsSpace, Spaced;
    if ws == [] {
      TokensEnd(pad);
      assert pad + Spaced(ws) == pad by { NoWords(); }
    } else {
      var rest := Spaced(ws[1..]);
      OneMoreWord(pad, ws);
      if ws[0] == "" {
        TokensOfSpaced(pad + " ", ws[1..]);
        assert pad + " " + "" + rest == pad + " " + rest;
      } else {
        SpacedStart(ws[1..]);
        TokensCons(pad + " ", ws[0], rest);
        TokensOfSpaced("", ws[1..]);
        assert "" + rest == rest;
      }
    }
  }

  lemma NoWords()
    ensures Spaced([]) == ""
  {}

  lemma {:induction false} OneMoreWord(pad: string, ws: seq<string>)
    requires ws != [] && All(IsSpace, pad)
    ensures pad + Spaced(ws) == pad + " " + ws[0] + Spaced(ws[1..]) && All(IsSpace, pad + " ")
  {
    var rest := Spaced(ws[1..]);
    assert Spaced(ws) == " " + ws[0] + rest;
    Associate(pad, " ", ws[0], rest);
  }

  lemma Associate(a: string, b: string, c: string, d: string)
    ensures a + (b + c + d) == a + b + c + d
  {}

  lemma TokensEnd(pad: string)
    requires All(IsSpace, pad)
    ensures Tokens(pad) == []
  {
    ReadTokenEnd(pad);
  }

  // ---- decimal numbers

  function Digit(d: nat): char
    requires d < 10
  {
    '0' + d as char
  }

  function PrintNat(n: nat): string {
    if n < 10 then [Digit(n)] else PrintNat(n / 10) + [Digit(n % 10)]
  }

  function PrintInt(n: int): string { if n < 0 then "-" + PrintNat(-n) else PrintNat(n) }

  /** The value of a string of digits. */
  function DigitsValue(s: string): nat
    requires All(IsDigit, s)
  {
    if s == "" then 0 else 10 * DigitsValue(s[..|s| - 1]) + (s[|s| - 1] - '0') as nat
  }

  /** `std::stoll`, and what `>>` reads into a number: the longest numeric prefix. */
  function ReadNumber(t: string): Option<(int, string)> {
    var signed := t != "" && t[0] in "+-";
    var digits := if signed then t[1..] else t;
    var n := Span(IsDigit, digits);
    if n == 0 then None
    else
      var v: int := DigitsValue(digits[..n]);
      Some((if signed && t[0] == '-' then -v else v, digits[n..]))
  }

  function ReadInt(s: string): Option<(int, string)> { ReadNumber(SkipSpace(s)) }

  lemma {:induction false} PrintNatRoundTrip(n: nat)
    ensures PrintNat(n) != "" && All(IsDigit, PrintNat(n)) && DigitsValue(PrintNat(n)) == n
  {
    if n >= 10 {
      PrintNatRoundTrip(n / 10);
      assert PrintNat(n)[..|PrintNat(n)| - 1] == PrintNat(n / 10);
    } else {
      assert PrintNat(n)[..0] == "";
    }
  }

  /** The most significant digit comes first. */
  lemma DecimalOrder()
    ensures PrintInt(-1203) == "-1203" && PrintInt(80) == "80"
  {
    assert PrintNat(12) == "12" && PrintNat(120) == "120";
    assert PrintNat(1203) == PrintNat(120) + "3";
  }

  predicate IsNumeral(c: char) { c == '-' || IsDigit(c) }

  lemma PrintIntIsToken(n: int)
    ensures All(IsNumeral, PrintInt(n)) && IsToken(PrintInt(n))
  {
    PrintNatRoundTrip(if n < 0 then -n else n);
    assert All(IsNumeral, PrintInt(n));
  }

  lemma ReadNumberIs(n: int, rest: string)
    requires rest != "" ==> !IsDigit(rest[0])
    ensures ReadNumber(PrintInt(n) + rest) == Some((n, rest))
  {
    hide PrintNat, DigitsValue;
    var digits := PrintNat(if n < 0 then -n else n);
    PrintNatRoundTrip(if n < 0 then -n else n);
    SpanIs(IsDigit, digits, rest);
    var t := PrintInt(n) + rest;
    assert IsDigit(digits[0]) && t[0] == if n < 0 then '-' else digits[0];
    assert (if n < 0 then t[1..] else t) == digits + rest;
  }

  lemma ReadIntIs(pad: string, n: int, rest: string)
    requires All(IsSpace, pad) && (rest != "" ==> !IsDigit(rest[0]))
    ensures ReadInt(pad + PrintInt(n) + rest) == Some((n, rest))
  {
    PrintIntIsToken(n);
    assert IsNumeral(PrintInt(n)[0]);
    assert pad + PrintInt(n) + rest == pad + (PrintInt(n) + rest);
    SpanIs(IsSpace, pad, PrintInt(n) + rest);
    ReadNumberIs(n, rest);
  }

  lemma PrintIntInjective(m: int, n: int)
    requires PrintInt(m) == PrintInt(n)
    ensures m == n
  {
    ReadNumberIs(m, "");
    ReadNumberIs(n, "");
  }

  // ---- fields

  /** What follows the last separator is determined by the text. */
  lemma LastField(sep: char, a: string, x: string, b: string, y: string)
    requires a + [sep] + x == b + [sep] + y && sep !in x && sep !in y
    ensures a == b && x == y
  {
    var s, t := a + [sep] + x, b + [sep] + y;
    assert |s| == |t| && s[|a|] == sep && t[|b|] == sep;
    assert forall i | |a| < i < |s| :: s[i] == x[i - |a| - 1];
    assert forall i | |b| < i < |t| :: t[i] == y[i - |b| - 1];
    assert |a| == |b|;
    assert s[..|a|] == a && t[..|b|] == b && s[|a| + 1..] == x && t[|b| + 1..] == y;
  }

  // ---- lines

  /** The lines that successive `getline` calls return. */
  function SplitLines(s: string): seq<string>
    decreases |s|
  {
    if s == "" then []
    else
      var n := Span(NotNewline, s);
      [s[..n]] + (if n == |s| then [] else SplitLines(s[n + 1..]))
  }

  function JoinLines(lines: seq<string>): string {
    if lines == [] then "" else lines[0] + "\n" + JoinLines(lines[1..])
  }

  lemma {:induction false} SplitJoinedLines(lines: seq<string>)
    requires forall i | 0 <= i < |lines| :: All(NotNewline, lines[i])
    ensures SplitLines(JoinLines(lines)) == lines
  {
    if lines != [] {
      var rest := JoinLines(lines[1..]);
      var s := JoinLines(lines);
      assert s == lines[0] + ("\n" + rest);
      SpanIs(NotNewline, lines[0], "\n" + rest);
      assert s[|lines[0]| + 1..] == rest;
      SplitJoinedLines(lines[1..]);
    }
  }

  lemma {:induction false} LineOfTokens(name: string, ws: seq<string>)
    requires All(IsGraph, name) && forall i | 0 <= i < |ws| :: All(IsGraph, ws[i])
    ensures All(NotNewline, name + Spaced(ws))
    decreases |ws|
  {
    if ws != [] {
      LineOfTokens(ws[0], ws[1..]);
      assert name + Spaced(ws) == name + " " + (ws[0] + Spaced(ws[1..]));
    }
  }

  lemma JoinLinesConcat(a: seq<string>, b: seq<string>)
    ensures JoinLines(a + b) == JoinLines(a) + JoinLines(b)
  {
    if a == [] {
      assert a + b == b;
    } else {
      assert (a + b)[1..] == a[1..] + b;
      JoinLinesConcat(a[1..], b);
    }
  }
}
