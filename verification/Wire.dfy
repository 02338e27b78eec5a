/** Text lines and raw bytes on one stream, as the upload connection mixes them. */
module Wire {
  import opened Basics
  import opened Text

  predicate IsByteChar(c: char) { c < 256 as char }

  function ToBytes(s: string): seq<byte> { seq(|s|, i requires 0 <= i < |s| => (s[i] as int % 256) as byte) }

  function ToText(b: seq<byte>): string { seq(|b|, i requires 0 <= i < |b| => b[i] as char) }

  /** `read_line`: the text before the next newline, or whatever came before the end. */
  function ReadLine(stream: seq<byte>): (string, seq<byte>) {
    var text := ToText(stream);
    var n := Span(NotNewline, text);
    (text[..n], if n == |stream| then [] else stream[n + 1..])
  }

  lemma ReadLineIs(line: string, rest: seq<byte>)
    requires All(IsByteChar, line) && All(NotNewline, line)
    ensures ReadLine(ToBytes(line + "\n") + rest) == (line, rest)
  {
    var stream := ToBytes(line + "\n") + rest;
    assert ToText(stream) == line + ("\n" + ToText(rest));
    SpanIs(NotNewline, line, "\n" + ToText(rest));
    assert stream[|line| + 1..] == rest;
  }
}
