/** The byte-buffer framer (crates/ussl-protocol/src/parser.rs:8-57): however a
  * stream is cut into chunks, and whenever `parse` is called, the same commands
  * come out. */
module Framing {
  import opened Basics
  import opened Strings
  import opened Commands

  const MAX_MESSAGE_SIZE: nat := 1024 * 1024

  /** The line without its '\r', if it ends in one. */
  function Chomp(line: string): string {
    if line != "" && line[|line| - 1] == '\r' then line[..|line| - 1] else line
  }

  lemma ChompIs(line: string)
    ensures Chomp(line + "\r") == line
    ensures line == "" || line[|line| - 1] != '\r' ==> Chomp(line) == line
  {}

  class Parser {
    var buffer: string

    constructor ()
      ensures buffer == ""
    {
      buffer := "";
    }

    method Feed(data: string) returns (accepted: bool)
      modifies this
      ensures accepted <==> |old(buffer)| + |data| <= 1048576
      ensures buffer == if accepted then old(buffer) + data else old(buffer)
    {
      if |buffer| + |data| > MAX_MESSAGE_SIZE {
        return false;
      }
      buffer := buffer + data;
      accepted := true;
    }

    method Parse(json: Json) returns (r: Option<Parsed>)
      modifies this
      ensures match Cut(old(buffer), '\n')
              case None => r == None && buffer == old(buffer)
              case Some((line, rest)) => r == Some(ParseLine(Chomp(line), json)) && buffer == rest
    {
      var lineEnd := Find(buffer, 0, '\n');
      if lineEnd == |buffer| {
        return None;
      }
      var lineLen := if lineEnd > 0 && buffer[lineEnd - 1] == '\r' then lineEnd - 1 else lineEnd;
      var line := buffer[..lineLen];
      assert line == Chomp(buffer[..lineEnd]);
      buffer := buffer[lineEnd + 1..];
      r := Some(ParseLine(line, json));
    }
  }

  // ---------- the lines of a stream ----------

  /** The complete lines of a stream, with their '\r'. */
  function Lines(s: string): seq<string>
    decreases |s|
  {
    match Cut(s, '\n')
    case None => []
    case Some((line, rest)) => [line] + Lines(rest)
  }

  /** What follows the last '\n'. */
  function Leftover(s: string): string
    decreases |s|
  {
    match Cut(s, '\n')
    case None => s
    case Some((_, rest)) => Leftover(rest)
  }

  function Results(lines: seq<string>, json: Json): seq<Parsed> {
    seq(|lines|, i requires 0 <= i < |lines| => ParseLine(Chomp(lines[i]), json))
  }

  function Joined(lines: seq<string>): string {
    if lines == [] then "" else lines[0] + "\n" + Joined(lines[1..])
  }

  lemma CutAppend(a: string, c: char, b: string)
    requires Cut(a, c).Some?
    ensures Cut(a + b, c) == Some((Cut(a, c).value.0, Cut(a, c).value.1 + b))
  {
    var (x, y) := Cut(a, c).value;
    CutIs(x, c, y + b);
    assert a + b == x + [c] + (y + b);
  }

  /** Bytes that arrive later continue the leftover. */
  lemma {:induction false} LinesAppend(a: string, b: string)
    ensures Lines(a + b) == Lines(a) + Lines(Leftover(a) + b)
    ensures Leftover(a + b) == Leftover(Leftover(a) + b)
    decreases |a|
  {
    hide Cut;
    match Cut(a, '\n')
    case None =>
      assert Lines(a) + Lines(a + b) == Lines(a + b);
    case Some((line, rest)) =>
      CutAppend(a, '\n', b);
      LinesAppend(rest, b);
      assert [line] + Lines(rest) + Lines(Leftover(rest) + b) == [line] + (Lines(rest) + Lines(Leftover(rest) + b));
  }

  /** A stream is its lines and its leftover; nothing is lost or invented. */
  lemma {:induction false} StreamIsItsLines(s: string)
    ensures s == Joined(Lines(s)) + Leftover(s) && Free(Leftover(s), '\n')
    ensures forall i :: 0 <= i < |Lines(s)| ==> Free(Lines(s)[i], '\n')
    decreases |s|
  {
    hide Cut;
    match Cut(s, '\n')
    case None =>
      assert "" + s == s;
    case Some((line, rest)) =>
      StreamIsItsLines(rest);
      assert ([line] + Lines(rest))[1..] == Lines(rest);
      assert Joined(Lines(s)) == line + "\n" + Joined(Lines(rest));
      assert line + ['\n'] + (Joined(Lines(rest)) + Leftover(rest)) ==
          line + "\n" + Joined(Lines(rest)) + Leftover(rest);
  }

  // ---------- any interleaving of feeding and parsing ----------

  datatype Call = FeedCall(data: string) | ParseCall

  /** The parser after a number of calls: its buffer, the bytes accepted and
    * consumed so far, and the results it gave. */
  datatype Trace = Trace(buffer: string, accepted: string, consumed: string, results: seq<Parsed>)

  function Step(t: Trace, c: Call, json: Json): Trace {
    match c
    case FeedCall(data) =>
      if |t.buffer| + |data| > MAX_MESSAGE_SIZE then t
      else t.(buffer := t.buffer + data, accepted := t.accepted + data)
    case ParseCall =>
      match Cut(t.buffer, '\n')
      case None => t
      case Some((line, rest)) =>
        t.(buffer := rest, consumed := t.consumed + line + "\n",
           results := t.results + [ParseLine(Chomp(line), json)])
  }

  function Run(calls: seq<Call>, json: Json): Trace {
    if calls == [] then Trace("", "", "", []) else
    Step(Run(calls[..|calls| - 1], json), calls[|calls| - 1], json)
  }

  /** The results given so far and the lines still buffered are together the
    * lines accepted; the buffer continues them. */
  ghost predicate Faithful(t: Trace, json: Json) {
    && t.results + Results(Lines(t.buffer), json) == Results(Lines(t.accepted), json)
    && Leftover(t.buffer) == Leftover(t.accepted)
    && t.consumed + t.buffer == t.accepted
  }

  lemma ResultsAppend(a: seq<string>, b: seq<string>, json: Json)
    ensures Results(a + b, json) == Results(a, json) + Results(b, json)
  {
    hide ParseLine, Chomp;
    var l, r := Results(a + b, json), Results(a, json) + Results(b, json);
    assert |l| == |r|;
    assert forall i :: 0 <= i < |l| ==> l[i] == r[i];
  }

  lemma FeedKeeps(t: Trace, data: string, json: Json)
    requires Faithful(t, json)
    ensures Faithful(t.(buffer := t.buffer + data, accepted := t.accepted + data), json)
  {
    hide Lines, Leftover, Results;
    LinesAppend(t.buffer, data);
    LinesAppend(t.accepted, data);
    ResultsAppend(Lines(t.buffer), Lines(Leftover(t.buffer) + data), json);
    ResultsAppend(Lines(t.accepted), Lines(Leftover(t.accepted) + data), json);
  }

  lemma FirstResult(s: string, json: Json)
    requires Cut(s, '\n').Some?
    ensures var (line, rest) := Cut(s, '\n').value;
            Results(Lines(s), json) == [ParseLine(Chomp(line), json)] + Results(Lines(rest), json) &&
            Leftover(s) == Leftover(rest)
  {
    hide ParseLine, Chomp, Cut;
    var (line, rest) := Cut(s, '\n').value;
    ResultsAppend([line], Lines(rest), json);
    OneResult(line, json);
  }

  lemma OneResult(line: string, json: Json)
    ensures Results([line], json) == [ParseLine(Chomp(line), json)]
  {
    hide ParseLine, Chomp;
  }

  lemma ParseKeeps(t: Trace, json: Json)
    requires Faithful(t, json)
    ensures Faithful(Step(t, ParseCall, json), json)
  {
    hide Lines, Leftover, Results, ParseLine, Chomp;
    match Cut(t.buffer, '\n')
    case None =>
    case Some((line, rest)) =>
      FirstResult(t.buffer, json);
      assert t.consumed + line + "\n" + rest == t.consumed + t.buffer;
      assert t.results + Results(Lines(t.buffer), json) ==
          t.results + [ParseLine(Chomp(line), json)] + Results(Lines(rest), json);
  }

  lemma {:induction false} EveryRunIsFaithful(calls: seq<Call>, json: Json)
    ensures Faithful(Run(calls, json), json)
    decreases |calls|
  {
    if calls != [] {
      var t := Run(calls[..|calls| - 1], json);
      EveryRunIsFaithful(calls[..|calls| - 1], json);
      match calls[|calls| - 1]
      case FeedCall(data) => FeedKeeps(t, data, json);
      case ParseCall => ParseKeeps(t, json);
    }
  }

  /** Chunking does not matter: two runs that accepted the same bytes gave
    * results of which one is a prefix of the other, and equal results once drained. */
  lemma ChunkingDoesNotMatter(calls: seq<Call>, others: seq<Call>, json: Json)
    requires Run(calls, json).accepted == Run(others, json).accepted
    ensures var (t, u) := (Run(calls, json), Run(others, json));
            (t.results <= u.results || u.results <= t.results) &&
            (Lines(t.buffer) == [] && Lines(u.buffer) == [] ==> t.results == u.results && t.buffer == u.buffer)
  {
    EveryRunIsFaithful(calls, json);
    EveryRunIsFaithful(others, json);
    var (t, u) := (Run(calls, json), Run(others, json));
    var all := Results(Lines(t.accepted), json);
    assert t.results <= all && u.results <= all;
    if Lines(t.buffer) == [] && Lines(u.buffer) == [] {
      StreamIsItsLines(t.buffer);
      StreamIsItsLines(u.buffer);
    }
  }

  // ---------- from commands to commands ----------

  lemma {:induction false} LinesOfJoined(lines: seq<string>)
    requires forall i :: 0 <= i < |lines| ==> Free(lines[i], '\n')
    ensures Lines(Joined(lines)) == lines && Leftover(Joined(lines)) == ""
  {
    if lines != [] {
      CutIs(lines[0], '\n', Joined(lines[1..]));
      assert Joined(lines) == lines[0] + ['\n'] + Joined(lines[1..]);
      LinesOfJoined(lines[1..]);
    }
  }

  /** Calls on a parser object go as the trace says. */
  method Replay(calls: seq<Call>, json: Json) returns (p: Parser, results: seq<Parsed>)
    ensures fresh(p) && p.buffer == Run(calls, json).buffer && results == Run(calls, json).results
  {
    p := new Parser();
    results := [];
    var i := 0;
    while i < |calls|
      invariant i <= |calls| && fresh(p)
      invariant p.buffer == Run(calls[..i], json).buffer && results == Run(calls[..i], json).results
    {
      assert calls[..i + 1][..i] == calls[..i];
      match calls[i] {
        case FeedCall(data) =>
          var _ := p.Feed(data);
        case ParseCall =>
          var r := p.Parse(json);
          if r.Some? {
            results := results + [r.value];
          }
      }
      i := i + 1;
    }
    assert calls[..i] == calls;
  }
}
