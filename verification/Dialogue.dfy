/** The text between head server and client during a download: the head's reply lines, and
    the line loop in which the client reads them. */
module Dialogue {
  import opened Basics
  import opened Text
  import opened Cluster
  import opened Voting
  import Placement

  /** A place to fetch a chunk from, as the client knows it. */
  datatype Loc = Loc(id: int, ip: string, port: int, hash: string)

  /** The client's view of a reply: a file hash and places, or no download at all. */
  datatype Reading = Refused | Places(hash: string, locs: seq<Loc>)

  // ---- what the head writes

  /** The public port of the first registered server with that address. */
  function PortOf(entries: seq<Placement.Entry>, server: string): int {
    if entries == [] then 8080
    else if Placement.Address(entries[0]) == server then entries[0].publicPort
    else PortOf(entries[1..], server)
  }

  /** The first registered server with that address decides the port; without one it is 8080. */
  lemma {:induction false} PortIs(entries: seq<Placement.Entry>, server: string, i: int)
    requires -1 <= i < |entries| && (i >= 0 ==> Placement.Address(entries[i]) == server)
    requires forall j | 0 <= j < if i >= 0 then i else |entries| :: Placement.Address(entries[j]) != server
    ensures PortOf(entries, server) == if i >= 0 then entries[i].publicPort else 8080
    decreases |entries|
  {
    hide Placement.Address;
    if entries != [] && i != 0 {
      PortIs(entries[1..], server, if i > 0 then i - 1 else -1);
    }
  }

  function LocOf(entries: seq<Placement.Entry>, f: Fetch): Loc {
    Loc(f.id, HostOf(f.server), PortOf(entries, f.server), f.hash)
  }

  function LocsOf(entries: seq<Placement.Entry>, plan: seq<Fetch>): seq<Loc> {
    seq(|plan|, i requires 0 <= i < |plan| => LocOf(entries, plan[i]))
  }

  function LocLine(l: Loc): string {
    "CHUNK_LOC " + PrintInt(l.id) + (" " + l.ip + (" " + PrintInt(l.port) + (" " + l.hash)))
  }

  function LocLines(locs: seq<Loc>): seq<string> {
    seq(|locs|, i requires 0 <= i < |locs| => LocLine(locs[i]))
  }

  function HashLine(hash: string): string { "FILE_HASH " + hash }

  /** The four replies of the head. */
  datatype Answer =
    | NoSuchFile
    | EmptyFile(hash: string)
    | Unverified(hash: string, count: nat, id: int)
    | Planned(hash: string, locs: seq<Loc>)

  function AnswerLines(a: Answer): seq<string> {
    match a
    case NoSuchFile => ["ERROR: No chunks found for file"]
    case EmptyFile(hash) => [HashLine(hash), "EOF"]
    case Unverified(hash, count, id) =>
      [HashLine(hash), "CHUNKS " + PrintInt(count), "ERROR: Could not verify hashes for chunk " + PrintInt(id)]
    case Planned(hash, locs) =>
      [HashLine(hash), "CHUNKS " + PrintInt(|locs|)] + LocLines(locs) + [HashLine(hash), "EOF"]
  }

  function AnswerText(a: Answer): string { JoinLines(AnswerLines(a)) }

  // ---- how the client reads

  function ParseLoc(s: string): Option<Loc> {
    match ReadInt(s)
    case None => None
    case Some((id, r1)) =>
      match ReadToken(r1)
      case None => None
      case Some((ip, r2)) =>
        match ReadInt(r2)
        case None => None
        case Some((port, r3)) =>
          match ReadToken(r3)
          case None => None
          case Some((hash, _)) => Some(Loc(id, ip, port, hash))
  }

  /** What the client makes of one line. */
  datatype Line = Bad | FileHash(hash: string) | Place(loc: Loc) | Last | Other

  /** A connection that has ended reads as an empty line. */
  function Classify(line: string): Line {
    if line == "" || "ERROR:" <= line then Bad
    else if "FILE_HASH " <= line then FileHash(line[10..])
    else if "CHUNKS " <= line then Other
    else if "CHUNK_LOC " <= line then
      match ParseLoc(line[10..])
      case None => Bad
      case Some(l) => Place(l)
    else if line == "EOF" then Last
    else Other
  }

  /** The client's loop over lines. */
  function ReadLines(lines: seq<string>, hash: string, locs: seq<Loc>): Reading
    decreases |lines|
  {
    if lines == [] then Refused
    else
      match Classify(lines[0])
      case Bad => Refused
      case FileHash(h) => ReadLines(lines[1..], h, locs)
      case Place(l) => ReadLines(lines[1..], hash, locs + [l])
      case Last => Places(hash, locs)
      case Other => ReadLines(lines[1..], hash, locs)
  }

  function ReadAnswer(text: string): Reading { ReadLines(SplitLines(text), "", []) }

  // ---- one location line

  /** A location line without line breaks in it reads back up to the first word of its hash. */
  lemma LocParses(l: Loc)
    requires IsToken(l.ip)
    ensures "CHUNK_LOC " <= LocLine(l)
    ensures ParseLoc(LocLine(l)[10..]) ==
      match ReadToken(" " + l.hash)
      case None => None
      case Some((word, _)) => Some(Loc(l.id, l.ip, l.port, word))
  {
    hide PrintInt, ReadInt, ReadToken;
    var r3 := " " + l.hash;
    var r2 := " " + PrintInt(l.port) + r3;
    var r1 := " " + l.ip + r2;
    assert LocLine(l)[10..] == "" + PrintInt(l.id) + r1;
    ReadIntIs("", l.id, r1);
    ReadTokenIs(" ", l.ip, r2);
    ReadIntIs(" ", l.port, r3);
  }

  /** A hash is read as it was written exactly when it is a token. */
  lemma HashReadsBack(hash: string)
    ensures ReadToken(" " + hash).Some? && ReadToken(" " + hash).value.0 == hash <==> IsToken(hash)
  {
    if IsToken(hash) {
      ReadTokenIs(" ", hash, "");
      assert " " + hash + "" == " " + hash;
    }
    if ReadToken(" " + hash).Some? { WordIsToken(" " + hash); }
  }

  lemma WordIsToken(s: string)
    requires ReadToken(s).Some?
    ensures IsToken(ReadToken(s).value.0)
  {
    var t := SkipSpace(s);
    var n := Span(IsGraph, t);
    assert n > 0 && forall i | 0 <= i < n :: t[..n][i] == t[i];
  }

  /** The client never holds a chunk hash that is not a token. */
  lemma {:induction false} ReadsTokens(lines: seq<string>, hash: string, locs: seq<Loc>)
    requires forall i | 0 <= i < |locs| :: IsToken(locs[i].hash)
    ensures var r := ReadLines(lines, hash, locs);
      r.Places? ==> forall i | 0 <= i < |r.locs| :: IsToken(r.locs[i].hash)
    decreases |lines|
  {
    hide Classify, IsToken;
    if lines != [] {
      match Classify(lines[0])
      case Bad =>
      case FileHash(h) => ReadsTokens(lines[1..], h, locs);
      case Place(l) => PlaceIsToken(lines[0]); ReadsTokens(lines[1..], hash, locs + [l]);
      case Last =>
      case Other => ReadsTokens(lines[1..], hash, locs);
    }
  }

  lemma PlaceIsToken(line: string)
    requires Classify(line).Place?
    ensures IsToken(Classify(line).loc.hash)
  {
    hide IsToken, ParseLoc;
    ParsedIsToken(line[10..]);
  }

  lemma ParsedIsToken(s: string)
    requires ParseLoc(s).Some?
    ensures IsToken(ParseLoc(s).value.hash)
  {
    hide ReadInt, IsToken, ReadToken;
    var (id, r1) := ReadInt(s).value;
    var (ip, r2) := ReadToken(r1).value;
    var (port, r3) := ReadInt(r2).value;
    WordIsToken(r3);
  }

  // ---- the whole reply

  predicate OneLine(hash: string) { All(NotNewline, hash) }

  /** The places that location lines with one-line hashes are read as. */
  function Words(locs: seq<Loc>): Option<seq<Loc>> {
    if locs == [] then Some([])
    else
      match ReadToken(" " + locs[0].hash)
      case None => None
      case Some((word, _)) =>
        match Words(locs[1..])
        case None => None
        case Some(more) => Some([locs[0].(hash := word)] + more)
  }

  lemma LinesClassify(hash: string, n: int, l: Loc)
    requires IsToken(l.ip)
    ensures Classify(HashLine(hash)) == FileHash(hash) && Classify("EOF") == Last
    ensures Classify("CHUNKS " + PrintInt(n)) == Other
    ensures Classify(LocLine(l)) ==
      match ReadToken(" " + l.hash)
      case None => Bad
      case Some((word, _)) => Place(l.(hash := word))
  {
    hide PrintInt, ReadToken, ParseLoc;
    LocParses(l);
    assert HashLine(hash)[10..] == hash && HashLine(hash)[0] == 'F';
    assert ("CHUNKS " + PrintInt(n))[0] == 'C';
    var line := LocLine(l);
    assert line[0] == 'C' && line[5] == '_';
  }

  /** Location lines are read one by one; a hash without a word ends the download. */
  lemma {:induction false} LocLinesRead(locs: seq<Loc>, tail: seq<string>, hash: string, got: seq<Loc>)
    requires forall i | 0 <= i < |locs| :: IsToken(locs[i].ip)
    ensures ReadLines(LocLines(locs) + tail, hash, got) ==
      match Words(locs)
      case None => Refused
      case Some(ws) => ReadLines(tail, hash, got + ws)
    decreases |locs|
  {
    hide Classify, LocLine, ReadToken, IsToken;
    if locs == [] {
      assert LocLines(locs) + tail == tail && got + [] == got;
    } else {
      var l, lines := locs[0], LocLines(locs) + tail;
      LinesClassify(hash, 0, l);
      assert lines[0] == LocLine(l) && lines[1..] == LocLines(locs[1..]) + tail;
      if ReadToken(" " + l.hash).Some? {
        var w := l.(hash := ReadToken(" " + l.hash).value.0);
        LocLinesRead(locs[1..], tail, hash, got + [w]);
        if Words(locs[1..]).Some? {
          assert (got + [w]) + Words(locs[1..]).value == got + ([w] + Words(locs[1..]).value);
        }
      }
    }
  }

  lemma {:induction false} WordsAreTokens(locs: seq<Loc>)
    ensures Words(locs) == Some(locs) <==> forall i | 0 <= i < |locs| :: IsToken(locs[i].hash)
    ensures Words(locs).Some? ==> |Words(locs).value| == |locs|
    decreases |locs|
  {
    hide ReadToken, IsToken;
    if locs != [] {
      WordsAreTokens(locs[1..]);
      HashReadsBack(locs[0].hash);
      assert locs == [locs[0]] + locs[1..];
      if Words(locs).Some? { assert Words(locs).value[1..] == Words(locs[1..]).value; }
      assert forall i | 0 < i < |locs| :: locs[i] == locs[1..][i - 1];
    }
  }

  /** A planned reply whose hashes are single lines is read as the same file hash and the
      first word of each chunk hash, or not at all. */
  lemma OneLineReplies(hash: string, locs: seq<Loc>)
    requires OneLine(hash) && forall i | 0 <= i < |locs| :: IsToken(locs[i].ip) && OneLine(locs[i].hash)
    ensures ReadAnswer(AnswerText(Planned(hash, locs))) ==
      match Words(locs)
      case None => Refused
      case Some(ws) => Places(hash, ws)
  {
    hide ReadLines, LocLine, HashLine, IsToken, OneLine, SplitLines, JoinLines, Words;
    var lines, tail := AnswerLines(Planned(hash, locs)), [HashLine(hash), "EOF"];
    LinesAreLines(hash, locs);
    SplitJoinedLines(lines);
    HeadReads(hash, |locs|, LocLines(locs) + tail);
    assert lines == [HashLine(hash), "CHUNKS " + PrintInt(|locs|)] + (LocLines(locs) + tail);
    LocLinesRead(locs, tail, hash, []);
    if Words(locs).Some? {
      assert [] + Words(locs).value == Words(locs).value;
      TailReads(hash, hash, Words(locs).value);
    }
  }

  lemma HeadReads(hash: string, n: nat, body: seq<string>)
    ensures ReadLines([HashLine(hash), "CHUNKS " + PrintInt(n)] + body, "", []) == ReadLines(body, hash, [])
  {
    hide Classify, HashLine, PrintInt;
    FrameLines(hash, n);
    var lines := [HashLine(hash), "CHUNKS " + PrintInt(n)] + body;
    assert lines[1..][1..] == body && lines[1..][0] == "CHUNKS " + PrintInt(n);
  }

  lemma TailReads(before: string, hash: string, locs: seq<Loc>)
    ensures ReadLines([HashLine(hash), "EOF"], before, locs) == Places(hash, locs)
  {
    hide Classify, HashLine;
    FrameLines(hash, 0);
    assert [HashLine(hash), "EOF"][1..] == ["EOF"];
  }

  lemma FrameLines(hash: string, n: nat)
    ensures Classify(HashLine(hash)) == FileHash(hash) && Classify("EOF") == Last
    ensures Classify("CHUNKS " + PrintInt(n)) == Other
  {
    LinesClassify(hash, n, Loc(0, "h", 0, ""));
  }

  lemma LinesAreLines(hash: string, locs: seq<Loc>)
    requires OneLine(hash) && forall i | 0 <= i < |locs| :: IsToken(locs[i].ip) && OneLine(locs[i].hash)
    ensures var lines := AnswerLines(Planned(hash, locs));
      forall i | 0 <= i < |lines| :: All(NotNewline, lines[i])
  {
    hide PrintInt, LocLine;
    var lines := AnswerLines(Planned(hash, locs));
    forall i | 0 <= i < |lines| ensures All(NotNewline, lines[i]) {
      if 2 <= i < |locs| + 2 {
        LocIsLine(locs[i - 2]);
      } else if i == 1 {
        NumeralIsLine(|locs|);
      }
    }
  }

  lemma NumeralIsLine(n: int)
    ensures All(NotNewline, PrintInt(n))
  {
    PrintIntIsToken(n);
  }

  lemma LocIsLine(l: Loc)
    requires IsToken(l.ip) && OneLine(l.hash)
    ensures All(NotNewline, LocLine(l))
  {
    hide PrintInt;
    NumeralIsLine(l.id);
    NumeralIsLine(l.port);
  }

  /** The plan reaches the client as it was made if and only if every winning hash is a
      token. The condition is on what the replicas reported. */
  lemma ParsesBackIff(hash: string, locs: seq<Loc>)
    requires OneLine(hash) && forall i | 0 <= i < |locs| :: IsToken(locs[i].ip)
    ensures ReadAnswer(AnswerText(Planned(hash, locs))) == Places(hash, locs) <==>
            forall i | 0 <= i < |locs| :: IsToken(locs[i].hash)
  {
    hide IsToken, ReadLines, SplitLines, AnswerText, Words;
    if forall i | 0 <= i < |locs| :: IsToken(locs[i].hash) {
      forall i | 0 <= i < |locs| ensures OneLine(locs[i].hash) { TokenIsOneLine(locs[i].hash); }
      OneLineReplies(hash, locs);
      WordsAreTokens(locs);
    }
    ReadsTokens(SplitLines(AnswerText(Planned(hash, locs))), "", []);
  }

  lemma TokenIsOneLine(s: string)
    requires IsToken(s)
    ensures OneLine(s)
  {}

  /** With one-line winning hashes the client ends with the head's file hash or with none. */
  lemma FileHashArrives(hash: string, locs: seq<Loc>)
    requires OneLine(hash) && forall i | 0 <= i < |locs| :: IsToken(locs[i].ip) && OneLine(locs[i].hash)
    ensures var r := ReadAnswer(AnswerText(Planned(hash, locs))); r.Places? ==> r.hash == hash
  {
    hide ReadAnswer, AnswerText, Words, IsToken, OneLine;
    OneLineReplies(hash, locs);
  }

  /** The other replies of the head: an empty file is read as such, errors end the download. */
  lemma OtherAnswers(hash: string, n: nat, id: int)
    requires OneLine(hash)
    ensures ReadAnswer(AnswerText(EmptyFile(hash))) == Places(hash, [])
    ensures ReadAnswer(AnswerText(NoSuchFile)) == Refused && ReadAnswer(AnswerText(Unverified(hash, n, id))) == Refused
  {
    hide HashLine, PrintInt, SplitLines, JoinLines, ReadLines;
    ErrorReads("ERROR: No chunks found for file", "");
    ErrorReads("ERROR: Could not verify hashes for chunk " + PrintInt(id), hash);
    HeadReads(hash, n, ["ERROR: Could not verify hashes for chunk " + PrintInt(id)]);
    TailReads("", hash, []);
    AnswersAreLines(hash, n, id);
    SplitJoinedLines(AnswerLines(EmptyFile(hash)));
    SplitJoinedLines(AnswerLines(NoSuchFile));
    SplitJoinedLines(AnswerLines(Unverified(hash, n, id)));
    assert AnswerLines(Unverified(hash, n, id)) == [HashLine(hash), "CHUNKS " + PrintInt(n)] +
      ["ERROR: Could not verify hashes for chunk " + PrintInt(id)];
  }

  ghost predicate AreLines(lines: seq<string>) { forall i | 0 <= i < |lines| :: All(NotNewline, lines[i]) }

  lemma AnswersAreLines(hash: string, n: nat, id: int)
    requires OneLine(hash)
    ensures AreLines(AnswerLines(EmptyFile(hash))) && AreLines(AnswerLines(NoSuchFile))
    ensures AreLines(AnswerLines(Unverified(hash, n, id)))
  {
    hide PrintInt, All, HashLine, AreLines;
    PlainLines(hash);
    WithNumeral("CHUNKS ", n);
    WithNumeral("ERROR: Could not verify hashes for chunk ", id);
    FewLines(HashLine(hash), "EOF", "EOF");
    FewLines("ERROR: No chunks found for file", "EOF", "EOF");
    FewLines(HashLine(hash), "CHUNKS " + PrintInt(n), "ERROR: Could not verify hashes for chunk " + PrintInt(id));
  }

  lemma FewLines(a: string, b: string, c: string)
    requires All(NotNewline, a) && All(NotNewline, b) && All(NotNewline, c)
    ensures AreLines([a]) && AreLines([a, b]) && AreLines([a, b, c])
  {
    hide All;
  }

  lemma PlainLines(hash: string)
    requires OneLine(hash)
    ensures All(NotNewline, HashLine(hash)) && All(NotNewline, "EOF")
    ensures All(NotNewline, "CHUNKS ") && All(NotNewline, "ERROR: No chunks found for file")
    ensures All(NotNewline, "ERROR: Could not verify hashes for chunk ")
  {}

  lemma WithNumeral(text: string, n: int)
    requires All(NotNewline, text)
    ensures All(NotNewline, text + PrintInt(n))
  {
    hide PrintInt;
    NumeralIsLine(n);
  }

  lemma ErrorReads(line: string, hash: string)
    requires "ERROR:" <= line
    ensures ReadLines([line], hash, []) == Refused
  {}

  // ---- a hash that carries lines of its own

  function WithLines(h: string, g: string): string { h + "\n" + HashLine(g) + "\nEOF" }

  lemma JoinOne(line: string)
    ensures JoinLines([line]) == line + "\n"
  {
    assert JoinLines([]) == "";
  }

  lemma ThreeInOne(a: string, b: string, c: string)
    ensures JoinLines([a + "\n" + b + "\n" + c]) == JoinLines([a, b, c])
  {
    JoinOne(a + "\n" + b + "\n" + c);
    JoinOne(a);
    JoinOne(b);
    JoinOne(c);
    JoinLinesConcat([a], [b]);
    JoinLinesConcat([a, b], [c]);
    assert [a] + [b] == [a, b] && [a, b] + [c] == [a, b, c];
  }

  /** When the winning hash of a single chunk contains a file hash line and an end line, the
      client ends with that file hash, whatever the head's was. */
  lemma EmbeddedHashArrives(hash: string, l: Loc, h: string, g: string)
    requires OneLine(hash) && IsToken(l.ip) && IsToken(h) && OneLine(g) && l.hash == WithLines(h, g)
    ensures ReadAnswer(AnswerText(Planned(hash, [l]))) == Places(g, [l.(hash := h)])
  {
    hide Classify, IsToken, OneLine, SplitLines, JoinLines;
    var short := l.(hash := h);
    var head, tail := [HashLine(hash), "CHUNKS " + PrintInt(1)], [HashLine(hash), "EOF"];
    var mid := [LocLine(short), HashLine(g), "EOF"];
    EmbeddedLine(l, short, h, g);
    ThreeInOne(LocLine(short), HashLine(g), "EOF");
    assert AnswerLines(Planned(hash, [l])) == head + [LocLine(l)] + tail by { assert LocLines([l]) == [LocLine(l)]; }
    SameText(head, [LocLine(l)], mid, tail);
    EmbeddedAreLines(hash, short, g);
    SplitJoinedLines(head + mid + tail);
    EmbeddedReads(hash, short, g);
  }

  lemma EmbeddedLine(l: Loc, short: Loc, h: string, g: string)
    requires l.hash == WithLines(h, g) && short == l.(hash := h)
    ensures LocLine(l) == LocLine(short) + "\n" + HashLine(g) + "\n" + "EOF"
  {
    hide PrintInt;
    var front := "CHUNK_LOC " + PrintInt(l.id) + " " + l.ip + " " + PrintInt(l.port) + " ";
    assert forall x: Loc | x.id == l.id && x.ip == l.ip && x.port == l.port :: LocLine(x) == front + x.hash;
    assert "\nEOF" == "\n" + "EOF";
  }

  lemma SameText(head: seq<string>, one: seq<string>, many: seq<string>, tail: seq<string>)
    requires JoinLines(one) == JoinLines(many)
    ensures JoinLines(head + one + tail) == JoinLines(head + many + tail)
  {
    hide JoinLines;
    JoinLinesConcat(head + one, tail);
    JoinLinesConcat(head, one);
    JoinLinesConcat(head + many, tail);
    JoinLinesConcat(head, many);
  }

  lemma EmbeddedAreLines(hash: string, l: Loc, g: string)
    requires OneLine(hash) && IsToken(l.ip) && IsToken(l.hash) && OneLine(g)
    ensures var lines := [HashLine(hash), "CHUNKS " + PrintInt(1)] + [LocLine(l), HashLine(g), "EOF"] +
      [HashLine(hash), "EOF"];
      forall i | 0 <= i < |lines| :: All(NotNewline, lines[i])
  {
    hide PrintInt, LocLine;
    NumeralIsLine(1);
    LocIsLine(l);
  }

  lemma EmbeddedReads(hash: string, l: Loc, g: string)
    requires IsToken(l.ip) && IsToken(l.hash)
    ensures ReadLines([HashLine(hash), "CHUNKS " + PrintInt(1)] + [LocLine(l), HashLine(g), "EOF"] +
      [HashLine(hash), "EOF"], "", [])
      == Places(g, [l])
  {
    hide Classify, IsToken, HashLine, LocLine, PrintInt;
    var tail := [HashLine(hash), "EOF"];
    var rest := [HashLine(g), "EOF"] + tail;
    HeadReads(hash, 1, [LocLine(l)] + rest);
    assert [HashLine(hash), "CHUNKS " + PrintInt(1)] + [LocLine(l), HashLine(g), "EOF"] + tail ==
           [HashLine(hash), "CHUNKS " + PrintInt(1)] + ([LocLine(l)] + rest);
    LinesClassify(g, 1, l);
    HashReadsBack(l.hash);
    var lines := [LocLine(l)] + rest;
    assert lines[0] == LocLine(l) && lines[1..] == rest && [] + [l] == [l];
    assert ReadLines(lines, hash, []) == ReadLines(rest, hash, [l]);
    assert rest[0] == HashLine(g) && rest[1..] == ["EOF"] + tail;
    assert ReadLines(rest, hash, [l]) == ReadLines(["EOF"] + tail, g, [l]);
  }

  // ---- the loops

  method FindPort(entries: seq<Placement.Entry>, server: string) returns (port: int)
    ensures port == PortOf(entries, server)
  {
    for i := 0 to |entries|
      invariant PortOf(entries, server) == PortOf(entries[i..], server)
    {
      assert entries[i..][1..] == entries[i + 1..];
      if Placement.Address(entries[i]) == server { return entries[i].publicPort; }
    }
    port := 8080;
  }

  /** The head's last loop: one line for every planned chunk. */
  method SendPlan(hash: string, plan: seq<Fetch>, entries: seq<Placement.Entry>) returns (text: string)
    ensures text == AnswerText(Planned(hash, LocsOf(entries, plan)))
  {
    hide JoinLines, PrintInt, PortOf;
    ghost var locs := LocsOf(entries, plan);
    var head, tail := [HashLine(hash), "CHUNKS " + PrintInt(|plan|)], [HashLine(hash), "EOF"];
    text := JoinLines(head);
    assert head + LocLines(locs)[..0] == head;
    for i := 0 to |plan|
      invariant text == JoinLines(head + LocLines(locs)[..i])
    {
      var port := FindPort(entries, plan[i].server);
      var line := LocLine(Loc(plan[i].id, HostOf(plan[i].server), port, plan[i].hash));
      JoinOne(line);
      JoinLinesConcat(head + LocLines(locs)[..i], [line]);
      assert head + LocLines(locs)[..i + 1] == head + LocLines(locs)[..i] + [line];
      text := text + (line + "\n");
    }
    assert LocLines(locs)[..|plan|] == LocLines(locs);
    JoinLinesConcat(head + LocLines(locs), tail);
    text := text + JoinLines(tail);
  }

  lemma {:induction false} NextLine(text: string)
    requires text != ""
    ensures var n := Span(NotNewline, text);
      && SplitLines(text) != [] && SplitLines(text)[0] == text[..n]
      && SplitLines(text)[1..] == SplitLines(if n == |text| then "" else text[n + 1..])
  {
    NoLines();
    hide Span;
  }

  /** The client's loop, line by line off the connection. */
  method ReceiveAnswer(text: string) returns (r: Reading)
    ensures r == ReadAnswer(text)
  {
    hide Classify, SplitLines, Span;
    var rest, hash, locs := text, "", [];
    while rest != ""
      invariant ReadLines(SplitLines(rest), hash, locs) == ReadAnswer(text)
      decreases |rest|
    {
      NextLine(rest);
      var n := Span(NotNewline, rest);
      var line := rest[..n];
      rest := if n == |rest| then "" else rest[n + 1..];
      match Classify(line) {
        case Bad => return Refused;
        case FileHash(h) => hash := h;
        case Place(l) => locs := locs + [l];
        case Last => return Places(hash, locs);
        case Other =>
      }
    }
    NoLines();
    r := Refused;
  }

  lemma NoLines()
    ensures SplitLines("") == []
  {}
}
