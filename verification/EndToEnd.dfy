/** Across components: commands from the text a client writes to the server's
  * parser, and replies from the server's encoder to the client's promises. */
module EndToEnd {
  import opened Basics
  import opened Strings
  import Base64
  import Client
  import CommandLines
  import Commands
  import Decimal
  import Framing
  import ResponseCodec
  import Responses
  import Values

  // ---------- commands ----------

  /** A command, the raw text of its value if it has one, and how its texts and its word are spelled. */
  datatype Written = Written(
    command: Commands.Command, raw: string, style: CommandLines.Style, words: CommandLines.Words)

  function LineOf(x: Written): string {
    CommandLines.Text(CommandLines.Render(x.command, x.raw, x.style, x.words))
  }

  ghost predicate Sendable(x: Written, json: Commands.Json) {
    CommandLines.Renderable(x.command, x.raw, x.style, json) && CommandLines.Fluent(x.words) &&
    Free(LineOf(x), '\n')
  }

  /** What goes over the wire: each line followed by CR LF. */
  function Stream(xs: seq<Written>): string {
    if xs == [] then "" else LineOf(xs[0]) + "\r\n" + Stream(xs[1..])
  }

  /** What the parser should give. */
  function Sent(xs: seq<Written>): seq<Commands.Parsed> {
    seq(|xs|, i requires 0 <= i < |xs| => Commands.Parsed(xs[i].command))
  }

  lemma FirstOfStream(x: Written, rest: string, json: Commands.Json)
    requires Sendable(x, json)
    ensures var s := LineOf(x) + "\r\n" + rest;
            Framing.Results(Framing.Lines(s), json) ==
                [Commands.Parsed(x.command)] + Framing.Results(Framing.Lines(rest), json) &&
            Framing.Leftover(s) == Framing.Leftover(rest)
  {
    hide LineOf, Commands.ParseLine, CommandLines.Renderable, Framing.Lines, Framing.Results;
    var line := LineOf(x) + "\r";
    var s := LineOf(x) + "\r\n" + rest;
    CutIs(line, '\n', rest);
    assert s == line + ['\n'] + rest;
    assert Framing.Chomp(line) == LineOf(x);
    Framing.FirstResult(s, json);
    OneLineParses(x, json);
  }

  lemma {:induction false} StreamParses(xs: seq<Written>, json: Commands.Json)
    requires forall i :: 0 <= i < |xs| ==> Sendable(xs[i], json)
    ensures Framing.Results(Framing.Lines(Stream(xs)), json) == Sent(xs) && Framing.Leftover(Stream(xs)) == ""
  {
    hide LineOf, Sendable, Framing.Results;
    if xs == [] {
      NothingParses(json);
    } else {
      FirstOfStream(xs[0], Stream(xs[1..]), json);
      StreamParses(xs[1..], json);
    }
  }

  lemma NothingParses(json: Commands.Json)
    ensures Framing.Results([], json) == []
  {}

  lemma OneLineParses(x: Written, json: Commands.Json)
    requires CommandLines.Renderable(x.command, x.raw, x.style, json) && CommandLines.Fluent(x.words)
    ensures Commands.ParseLine(LineOf(x), json) == Commands.Parsed(x.command)
  {
    CommandLines.RenderedParses(x.command, x.raw, x.style, x.words, json);
  }

  ghost predicate AllSendable(xs: seq<Written>, json: Commands.Json) {
    forall i :: 0 <= i < |xs| ==> Sendable(xs[i], json)
  }

  /** The parser has accepted exactly these bytes and holds no complete line. */
  predicate Drained(xs: seq<Written>, t: Framing.Trace) {
    t.accepted == Stream(xs) && Framing.Lines(t.buffer) == []
  }

  /** Any commands, written in any style, cut into any chunks and fed to the
    * parser with calls of `parse` anywhere in between: once the parser has
    * accepted the bytes and been drained, it has given exactly those commands. */
  lemma CommandsArriveIntact(xs: seq<Written>, calls: seq<Framing.Call>, json: Commands.Json)
    requires AllSendable(xs, json) && Drained(xs, Framing.Run(calls, json))
    ensures var t := Framing.Run(calls, json); t.buffer == "" && t.results == Sent(xs)
  {
    hide Stream, Framing.Run;
    StreamParses(xs, json);
    Framing.EveryRunIsFaithful(calls, json);
    var t := Framing.Run(calls, json);
    Framing.StreamIsItsLines(t.buffer);
    assert Framing.Results([], json) == [];
    assert t.results + [] == t.results;
  }

  // ---------- replies ----------

  /** A text without a CR LF in it or across its end. */
  predicate Whole(s: string) {
    forall k :: 0 <= k < |s| ==> !Client.CrlfAt(s, k)
  }

  lemma LineFirst(s: string, rest: string)
    requires Whole(s)
    ensures Client.Lines(s + "\r\n" + rest) == [s] + Client.Lines(rest)
  {
    var t := s + "\r\n" + rest;
    forall k | 0 <= k < |s| ensures !Client.CrlfAt(t, k) {
      assert Client.CrlfAt(s, k) == (k + 1 < |s| && Client.CrlfAt(t, k));
    }
    assert t[|s|] == '\r' && t[|s| + 1] == '\n';
    Client.FindCrlfIs(t, |s|);
    assert t[..|s|] == s && t[|s| + 2..] == rest;
  }

  lemma FreeIsWhole(s: string)
    requires Free(s, '\n')
    ensures Whole(s)
  {}

  lemma CountAnswers(line: string, rest: seq<string>)
    ensures Client.Answers([line] + rest) == (if Client.IsResponse(line) then [line] else []) + Client.Answers(rest)
  {
    assert ([line] + rest)[1..] == rest;
  }

  /** A status, error, integer or null reply is one answer: its line. */
  lemma LineRepliesAreOneAnswer(r: Responses.Response, json: Responses.Json)
    requires r.Ok? || r.Error? || r.Integer? || r.Null? || r.Pong?
    requires Free(Responses.Header(r, json), '\n')
    ensures Client.Answers(Client.Lines(Responses.Encode(r, json))) == [Responses.Header(r, json)]
  {
    hide Decimal.PrintInt;
    var h := Responses.Header(r, json);
    FreeIsWhole(h);
    LineFirst(h, "");
    assert Responses.Encode(r, json) == h + "\r\n" + "";
    CountAnswers(h, []);
    assert [h] + [] == [h];
  }

  /** A bulk reply is its length line and then whatever its data reads as: the
    * client, which matches by line, sees exactly one answer only if the data has
    * no response line in it. */
  lemma BulkRepliesAreMoreAnswers(data: string, json: Responses.Json)
    ensures var r := Responses.Bulk(data);
            Client.Answers(Client.Lines(Responses.Encode(r, json))) ==
              [Responses.Header(r, json)] + Client.Answers(Client.Lines(data + "\r\n"))
  {
    hide Decimal.Print;
    var h := Responses.Header(Responses.Bulk(data), json);
    assert Free(Decimal.Print(|data|), '\n');
    FreeIsWhole(h);
    LineFirst(h, data + "\r\n");
    assert Responses.Encode(Responses.Bulk(data), json) == h + "\r\n" + (data + "\r\n");
    CountAnswers(h, Client.Lines(data + "\r\n"));
  }

  /** So the reply to a GET, the bulk of a JSON text, is two answers: the second
    * settles the next command. */
  lemma ValueRepliesAreTwoAnswers(v: Values.Value, json: Responses.Json)
    requires json(v) != "" && Free(json(v), '\n') && json(v)[0] != '#'
    ensures Client.Answers(Client.Lines(Responses.Encode(Responses.Val(v), json))) ==
            [Responses.Header(Responses.Val(v), json), json(v)]
  {
    hide Decimal.Print, Client.Lines, Client.Answers;
    var text := json(v);
    BulkRepliesAreMoreAnswers(text, json);
    assert Responses.Encode(Responses.Val(v), json) == Responses.Encode(Responses.Bulk(text), json);
    OneTextIsOneAnswer(text);
  }

  lemma OneTextIsOneAnswer(text: string)
    requires text != "" && Free(text, '\n') && text[0] != '#'
    ensures Client.Answers(Client.Lines(text + "\r\n")) == [text]
  {
    FreeIsWhole(text);
    LineFirst(text, "");
    assert text + "\r\n" + "" == text + "\r\n";
    CountAnswers(text, []);
    assert [text] + [] == [text];
  }

  /** What follows the first line. */
  function AfterFirst(s: string): string {
    var i := Client.FindCrlf(s, 0);
    if i == |s| then "" else s[i + 2..]
  }

  /** What a reply puts on the wire behind its first line. */
  function Trailing(r: Responses.Response, json: Responses.Json): string {
    match r
    case Bulk(data) => data + Responses.CRLF
    case Val(v) => json(v) + Responses.CRLF
    case Array(items) => Responses.EncodeAll(items, json)
    case Ok(_) => AfterFirst(Responses.Header(r, json) + Responses.CRLF)
    case Error(_, _) => AfterFirst(Responses.Header(r, json) + Responses.CRLF)
    case _ => ""
  }

  /** Status and error texts may themselves run over several lines. */
  lemma FirstLineOf(h: string)
    requires h != "" && h[0] != '\r'
    ensures exists first ::
              first != "" && first[0] == h[0] &&
              Client.Lines(h + "\r\n") == [first] + Client.Lines(AfterFirst(h + "\r\n"))
  {
    var s := h + "\r\n";
    assert Client.CrlfAt(s, |h|);
    var i := Client.FindCrlf(s, 0);
    assert 0 < i <= |h|;
    assert s[..i][0] == h[0];
  }

  /** A reply of any kind is its first line, which is an answer unless it is a
    * delta, and then whatever lines follow it. */
  lemma AnswersOfReply(r: Responses.Response, json: Responses.Json)
    ensures var answers := Client.Answers(Client.Lines(Responses.Encode(r, json)));
            |answers| == (if r.Delta? then 0 else 1) + |Client.Answers(Client.Lines(Trailing(r, json)))|
  {
    hide Decimal.Print, Decimal.PrintInt;
    var (h, rest) := (Responses.Header(r, json), Trailing(r, json));
    if r.Ok? || r.Error? {
      assert Responses.Encode(r, json) == h + "\r\n";
      FirstLineOf(h);
      var first :| first != "" && first[0] == h[0] && Client.Lines(h + "\r\n") == [first] + Client.Lines(rest);
      CountAnswers(first, Client.Lines(rest));
    } else {
      assert Responses.Encode(r, json) == h + "\r\n" + rest;
      HeadersAreLines(r, json);
      FreeIsWhole(h);
      LineFirst(h, rest);
      CountAnswers(h, Client.Lines(rest));
    }
    assert Client.Lines("") == [] && Client.Answers([]) == [];
  }

  lemma HeadersAreLines(r: Responses.Response, json: Responses.Json)
    requires !r.Ok? && !r.Error?
    ensures Free(Responses.Header(r, json), '\n')
  {
    hide Decimal.Print, Decimal.PrintInt, Base64.Encode;
    match r
    case Delta(version, delta) => ResponseCodec.EncodingIsFree(delta);
    case _ =>
  }

  /** A text that ends in a line end leaves nothing over. */
  lemma {:induction false} EndedLeavesNothing(s: string)
    ensures Client.Leftover(s + "\r\n") == ""
    decreases |s|
  {
    var t := s + "\r\n";
    assert Client.CrlfAt(t, |s|);
    var i := Client.FindCrlf(t, 0);
    if i < |s| {
      assert i + 2 <= |s|;
      assert t[i + 2..] == s[i + 2..] + "\r\n";
      EndedLeavesNothing(s[i + 2..]);
    } else {
      assert i == |s| && t[i + 2..] == "";
    }
  }

  /** So the lines behind it are its own and those of what follows. */
  lemma LinesAfterEnd(s: string, rest: string)
    requires Ended(s)
    ensures Client.Lines(s + rest) == Client.Lines(s) + Client.Lines(rest)
  {
    EndedLeavesNothing(s[..|s| - 2]);
    assert s == s[..|s| - 2] + "\r\n";
    Client.LinesAppend(s, rest);
    assert "" + rest == rest;
  }

  predicate Ended(s: string) {
    |s| >= 2 && s[|s| - 2..] == "\r\n"
  }

  lemma {:induction false} RepliesEnd(r: Responses.Response, json: Responses.Json)
    ensures Ended(Responses.Encode(r, json))
    decreases r, 0
  {
    match r
    case Array(items) => RepliesAllEnd(items, json);
    case _ =>
  }

  lemma {:induction false} RepliesAllEnd(items: seq<Responses.Response>, json: Responses.Json)
    ensures items != [] ==> Ended(Responses.EncodeAll(items, json))
    decreases items, 1
  {
    if items != [] {
      RepliesEnd(items[0], json);
      RepliesAllEnd(items[1..], json);
    }
  }

  /** The answers among the lines of a text behind a length or status line. */
  function Inside(text: string): nat {
    |Client.Answers(Client.Lines(text))|
  }

  /** How many answers a reply is, by its kind. */
  function AnswerCount(r: Responses.Response, json: Responses.Json): nat
    decreases r, 0
  {
    match r
    case Delta(_, _) => 0
    case Bulk(data) => 1 + Inside(data + Responses.CRLF)
    case Val(v) => 1 + Inside(json(v) + Responses.CRLF)
    case Array(items) => 1 + AnswerCounts(items, json)
    case Ok(_) => 1 + Inside(AfterFirst(Responses.Header(r, json) + Responses.CRLF))
    case Error(_, _) => 1 + Inside(AfterFirst(Responses.Header(r, json) + Responses.CRLF))
    case _ => 1
  }

  function AnswerCounts(items: seq<Responses.Response>, json: Responses.Json): nat
    decreases items, 1
  {
    if items == [] then 0 else AnswerCount(items[0], json) + AnswerCounts(items[1..], json)
  }

  /** The client counts that many answers in every reply, arrays nested to any depth. */
  lemma {:induction false} AnswersAreCounted(r: Responses.Response, json: Responses.Json)
    ensures Inside(Responses.Encode(r, json)) == AnswerCount(r, json)
    decreases r, 0
  {
    hide Responses.Encode, Client.Lines, Client.Answers;
    AnswersOfReply(r, json);
    NoLinesNoAnswers();
    match r
    case Array(items) => AnswersOfAllAreCounted(items, json);
    case _ =>
  }

  lemma {:induction false} AnswersOfAllAreCounted(items: seq<Responses.Response>, json: Responses.Json)
    ensures Inside(Responses.EncodeAll(items, json)) == AnswerCounts(items, json)
    decreases items, 1
  {
    hide Responses.Encode, Client.Lines, Client.Answers;
    if items == [] {
      NoLinesNoAnswers();
    } else {
      var (first, rest) := (Responses.Encode(items[0], json), Responses.EncodeAll(items[1..], json));
      AnswersAreCounted(items[0], json);
      AnswersOfAllAreCounted(items[1..], json);
      RepliesEnd(items[0], json);
      LinesAfterEnd(first, rest);
      Client.AnswersAppend(Client.Lines(first), Client.Lines(rest));
    }
  }

  lemma {:induction false} OnlyDeltasCountNothing(items: seq<Responses.Response>, json: Responses.Json)
    ensures AnswerCounts(items, json) == 0 <==> forall i :: 0 <= i < |items| ==> items[i].Delta?
  {
    if items != [] {
      OnlyDeltasCountNothing(items[1..], json);
      assert forall i :: 1 <= i < |items| ==> items[i] == items[1..][i - 1];
    }
  }

  /** One reply settles one command exactly when: it is an integer, null or pong;
    * a status or error whose text starts no second answer; a bulk or value with no
    * answer in its data; or an array of deltas only. A delta settles none. */
  lemma OneAnswerIff(r: Responses.Response, json: Responses.Json)
    ensures Inside(Responses.Encode(r, json)) == 1 <==>
              match r
              case Delta(_, _) => false
              case Bulk(data) => Client.Answers(Client.Lines(data + Responses.CRLF)) == []
              case Val(v) => Client.Answers(Client.Lines(json(v) + Responses.CRLF)) == []
              case Array(items) => forall i :: 0 <= i < |items| ==> items[i].Delta?
              case Ok(_) => Inside(AfterFirst(Responses.Header(r, json) + Responses.CRLF)) == 0
              case Error(_, _) => Inside(AfterFirst(Responses.Header(r, json) + Responses.CRLF)) == 0
              case _ => true
    ensures r.Delta? ==> Client.Answers(Client.Lines(Responses.Encode(r, json))) == []
  {
    hide Responses.Encode, Client.Lines, Client.Answers;
    AnswersAreCounted(r, json);
    if r.Array? {
      OnlyDeltasCountNothing(r.items, json);
    }
  }

  lemma NoLinesNoAnswers()
    ensures Client.Answers(Client.Lines("")) == []
  {}

  /** A reply of one line, as it arrives, settles the first pending command: an
    * error rejects it, a status, integer, null or pong resolves it. */
  lemma LineRepliesSettle(c: Client.State, r: Responses.Response, json: Responses.Json)
    requires c.pending != [] && c.buffer == ""
    requires r.Ok? || r.Error? || r.Integer? || r.Null? || r.Pong?
    requires Free(Responses.Header(r, json), '\n')
    ensures var d := Client.HandleMessage(c, Responses.Encode(r, json));
            var (command, line) := (c.pending[0], Responses.Header(r, json));
            d == c.(pending := c.pending[1..],
                    settled := c.settled + [if r.Error? then Client.Rejected(command, line)
                                            else Client.Resolved(command, line)])
  {
    hide Decimal.PrintInt, Client.HandleMessage;
    var h := Responses.Header(r, json);
    assert Responses.Encode(r, json) == h + "\r\n";
    OneLineIsHandled(c, h);
    if r.Error? {
      assert h == "-ERR" + (" " + r.code + " " + r.message);
      assert h[..4] == "-ERR";
    }
  }

  lemma OneLineIsHandled(c: Client.State, h: string)
    requires c.buffer == "" && Free(h, '\n') && h != "" && h[0] != '#'
    ensures Client.HandleMessage(c, h + "\r\n") == Client.HandleLine(c, h)
  {
    hide Client.Lines, Client.Leftover, Client.HandleLine;
    FreeIsWhole(h);
    LineFirst(h, "");
    EndedLeavesNothing(h);
    NothingIsNoLine();
    assert c.buffer + (h + "\r\n") == h + "\r\n" == h + "\r\n" + "";
    assert [h] + [] == [h] && [h][1..] == [];
    assert Client.HandleLines(Client.HandleLine(c, h), []) == Client.HandleLine(c, h);
  }

  lemma NothingIsNoLine()
    ensures Client.Lines("") == []
  {}
}
