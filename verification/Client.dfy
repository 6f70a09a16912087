/** The JavaScript client's stream reassembly and promise matching
  * (sdks/js/src/client.ts:162-285). */
module Client {
  import opened Basics
  import opened Strings
  import Base64
  import Responses
  import Decimal

  datatype Connection = Disconnected | Connecting | Connected | Reconnecting

  /** What became of a command's promise. */
  datatype Settlement =
    | Resolved(command: string, line: string)
    | Rejected(command: string, line: string)
    | Dropped(command: string)

  /** The client's fields, and the commands sent and settled so far. */
  datatype State = State(
    connection: Connection, open: bool, attempt: nat, reconnect: bool, maxAttempts: nat, documents: seq<string>,
    pending: seq<string>, buffer: string, sent: seq<string>, settled: seq<Settlement>)

  // ---------- lines ----------

  predicate CrlfAt(s: string, i: nat) {
    i + 1 < |s| && s[i] == '\r' && s[i + 1] == '\n'
  }

  /** Where the first CR LF at or after `from` begins, or the length. */
  function FindCrlf(s: string, from: nat): (i: nat)
    requires from <= |s|
    ensures from <= i <= |s| && (i < |s| ==> CrlfAt(s, i))
    ensures forall k :: from <= k < i ==> !CrlfAt(s, k)
    decreases |s| - from
  {
    if from == |s| || CrlfAt(s, from) then from else FindCrlf(s, from + 1)
  }

  /** `split('\r\n')`: the complete lines, and what is left over. */
  function Lines(s: string): seq<string>
    decreases |s|
  {
    var i := FindCrlf(s, 0);
    if i == |s| then [] else [s[..i]] + Lines(s[i + 2..])
  }

  function Leftover(s: string): string
    decreases |s|
  {
    var i := FindCrlf(s, 0);
    if i == |s| then s else Leftover(s[i + 2..])
  }

  lemma FindCrlfIs(s: string, i: nat)
    requires CrlfAt(s, i) && forall k :: 0 <= k < i ==> !CrlfAt(s, k)
    ensures FindCrlf(s, 0) == i
  {}

  /** Text that arrives later continues the leftover, even in the middle of a line end. */
  lemma {:induction false} LinesAppend(a: string, b: string)
    ensures Lines(a + b) == Lines(a) + Lines(Leftover(a) + b)
    ensures Leftover(a + b) == Leftover(Leftover(a) + b)
    decreases |a|
  {
    hide FindCrlf;
    var i := FindCrlf(a, 0);
    if i < |a| {
      CrlfStays(a, i, b);
      var rest := a[i + 2..];
      LinesAppend(rest, b);
      assert [a[..i]] + Lines(rest) + Lines(Leftover(rest) + b) == [a[..i]] + (Lines(rest) + Lines(Leftover(rest) + b));
    } else {
      assert [] + Lines(a + b) == Lines(a + b);
    }
  }

  lemma CrlfStays(a: string, i: nat, b: string)
    requires i < |a| && i == FindCrlf(a, 0)
    ensures FindCrlf(a + b, 0) == i && (a + b)[..i] == a[..i] && (a + b)[i + 2..] == a[i + 2..] + b
  {
    assert forall k :: 0 <= k <= i ==> CrlfAt(a + b, k) == CrlfAt(a, k);
    FindCrlfIs(a + b, i);
  }

  // ---------- delta lines ----------

  function DigitsEnd(s: string, i: nat): (e: nat)
    requires i <= |s|
    ensures i <= e <= |s|
    ensures forall k :: i <= k < e ==> Decimal.IsDigit(s[k])
    decreases |s| - i
  {
    if i < |s| && Decimal.IsDigit(s[i]) then DigitsEnd(s, i + 1) else i
  }

  function SpacesEnd(s: string, i: nat): (e: nat)
    requires i <= |s|
    ensures i <= e <= |s|
    ensures forall k :: i <= k < e ==> White(s[k])
    ensures e < |s| ==> !White(s[e])
    decreases |s| - i
  {
    if i < |s| && White(s[i]) then SpacesEnd(s, i + 1) else i
  }

  /** The payload that /^#(\d+)\s+(.+)$/ captures: what follows the white space,
    * or its last character when nothing follows. */
  function DeltaPayload(line: string): Option<string> {
    if line == "" || line[0] != '#' then None else
    var d := DigitsEnd(line, 1);
    var w := SpacesEnd(line, d);
    if d == 1 || w == d then None else
    var from := if w < |line| then w else w - 1;
    if from == d || !Free(line[from..], '\n') || !Free(line[from..], '\r') then None else Some(line[from..])
  }

  /** The line is a '#', digits up to `d`, white space up to `p`, and a payload on one line. */
  predicate DeltaSplit(line: string, d: nat, p: nat) {
    && 1 < d < p < |line| && line[0] == '#'
    && (forall k :: 1 <= k < d ==> Decimal.IsDigit(line[k]))
    && (forall k :: d <= k < p ==> White(line[k]))
    && Free(line[p..], '\n') && Free(line[p..], '\r')
  }

  /** A line is a delta with a payload exactly when it splits so, and of all such
    * payloads the shortest is taken. */
  lemma DeltaPayloadIs(line: string)
    ensures DeltaPayload(line).Some? <==> exists d: nat, p: nat :: DeltaSplit(line, d, p)
    ensures DeltaPayload(line).Some? ==>
              exists d: nat, p: nat :: DeltaSplit(line, d, p) && DeltaPayload(line).value == line[p..] &&
                             forall d': nat, p': nat :: DeltaSplit(line, d', p') ==> p' <= p
  {
    if DeltaPayload(line).Some? {
      var d := DigitsEnd(line, 1);
      var w := SpacesEnd(line, d);
      var from := if w < |line| then w else w - 1;
      assert DeltaSplit(line, d, from);
      forall d': nat, p': nat | DeltaSplit(line, d', p') ensures p' <= from {
        SplitIsBefore(line, d', p');
      }
    }
    if d: nat, p: nat :| DeltaSplit(line, d, p) {
      SplitIsBefore(line, d, p);
      var w := SpacesEnd(line, d);
      var from := if w < |line| then w else w - 1;
      assert line[from..] == line[p..][from - p..];
    }
  }

  lemma SplitIsBefore(line: string, d: nat, p: nat)
    requires DeltaSplit(line, d, p)
    ensures DigitsEnd(line, 1) == d && p <= SpacesEnd(line, d)
  {
    assert White(line[d]);
    DigitsEndIs(line, 1, d);
  }

  /** What a delta line does: nothing, deliver bytes to every document, or throw from `atob`. */
  datatype Effect = Ignored | Delivered(bytes: Base64.Bytes) | Throws

  function DeltaEffect(line: string): Effect {
    match DeltaPayload(line)
    case None => Ignored
    case Some(payload) =>
      match Base64.Atob(payload)
      case Some(bytes) => Delivered(bytes)
      case None => Throws
  }

  // ---------- the methods, on values ----------

  function Send(c: State, command: string): State {
    if c.connection.Connected? && c.open then c.(pending := c.pending + [command], sent := c.sent + [command]) else c
  }

  /** Every document asks for itself again. */
  function RefreshAll(c: State, ids: seq<string>): State
    decreases |ids|
  {
    if ids == [] then c else RefreshAll(Send(c, "GET " + ids[0]), ids[1..])
  }

  function Answered(command: string, line: string): Settlement {
    if |line| >= 4 && line[..4] == "-ERR" then Rejected(command, line) else Resolved(command, line)
  }

  function Settle(c: State, line: string): State {
    if c.pending == [] then c else
    var command := c.pending[0];
    c.(pending := c.pending[1..],
       settled := c.settled + [Answered(command, line)])
  }

  predicate IsDelta(line: string) {
    line != "" && line[0] == '#'
  }

  predicate IsResponse(line: string) {
    line != "" && line[0] != '#'
  }

  function HandleLine(c: State, line: string): State {
    if line == "" then c
    else if IsDelta(line) then
      if DeltaEffect(line).Delivered? then RefreshAll(c, c.documents) else c
    else Settle(c, line)
  }

  predicate LineThrows(line: string) {
    IsDelta(line) && DeltaEffect(line).Throws?
  }

  /** A delta that throws ends the loop; the lines after it are lost. */
  function HandleLines(c: State, lines: seq<string>): State
    decreases |lines|
  {
    if lines == [] || LineThrows(lines[0]) then c else HandleLines(HandleLine(c, lines[0]), lines[1..])
  }

  function HandleMessage(c: State, data: string): State {
    var text := c.buffer + data;
    HandleLines(c.(buffer := Leftover(text)), Lines(text))
  }

  function DropAll(pending: seq<string>): seq<Settlement> {
    seq(|pending|, i requires 0 <= i < |pending| => Dropped(pending[i]))
  }

  /** The socket closed: every pending command is rejected; the buffer is kept;
    * a reconnection is scheduled while attempts remain. */
  function HandleDisconnect(c: State): State {
    var again := c.reconnect && c.attempt < c.maxAttempts;
    c.(connection := if again then Reconnecting else Disconnected,
       attempt := if again then c.attempt + 1 else c.attempt,
       open := false, pending := [], settled := c.settled + DropAll(c.pending))
  }

  function HandleOpen(c: State): State {
    c.(connection := Connected, open := true, attempt := 0)
  }

  /** `disconnect()`: pending commands wait for the close event. */
  function Disconnect(c: State): State {
    c.(reconnect := false, open := false, connection := Disconnected)
  }

  class USSLClient {
    var connection: Connection
    var open: bool
    var attempt: nat
    var reconnect: bool
    const maxAttempts: nat
    var documents: seq<string>
    var pending: seq<string>
    var buffer: string
    ghost var sent: seq<string>
    ghost var settled: seq<Settlement>

    ghost function Abs(): State
      reads this
    {
      State(connection, open, attempt, reconnect, maxAttempts, documents, pending, buffer, sent, settled)
    }

    constructor (reconnect: bool, maxAttempts: nat)
      ensures Abs() == State(Disconnected, false, 0, reconnect, maxAttempts, [], [], "", [], [])
    {
      connection, open, attempt := Disconnected, false, 0;
      this.reconnect, this.maxAttempts := reconnect, maxAttempts;
      documents, pending, buffer := [], [], "";
      sent, settled := [], [];
    }

    method SendCommand(command: string)
      modifies this
      ensures Abs() == Send(old(Abs()), command)
    {
      if connection.Connected? && open {
        pending := pending + [command];
        sent := sent + [command];
      }
    }

    method HandleDelta(line: string) returns (threw: bool)
      requires IsDelta(line)
      modifies this
      ensures threw <==> LineThrows(line)
      ensures Abs() == if threw then old(Abs()) else HandleLine(old(Abs()), line)
    {
      var payload := DeltaPayload(line);
      if payload.None? {
        return false;
      }
      var bytes := Base64.Atob(payload.value);
      if bytes.None? {
        return true;
      }
      var ids := documents;
      var i := 0;
      while i < |ids|
        invariant i <= |ids|
        invariant RefreshAll(Abs(), ids[i..]) == RefreshAll(old(Abs()), ids)
      {
        SendCommand("GET " + ids[i]);
        assert ids[i..][1..] == ids[i + 1..];
        i := i + 1;
      }
      threw := false;
    }

    /** Returns whether an exception left the handler. */
    method HandleData(data: string) returns (threw: bool)
      modifies this
      ensures Abs() == HandleMessage(old(Abs()), data)
      ensures threw <==> exists line :: line in Lines(old(buffer) + data) && LineThrows(line)
    {
      hide Lines, Leftover, DeltaEffect, RefreshAll;
      buffer := buffer + data;
      var lines := Lines(buffer);
      buffer := Leftover(buffer);
      ghost var start := Abs();
      var i := 0;
      while i < |lines|
        invariant i <= |lines|
        invariant HandleLines(Abs(), lines[i..]) == HandleLines(start, lines)
        invariant forall k :: 0 <= k < i ==> !LineThrows(lines[k])
      {
        var line := lines[i];
        assert lines[i..][0] == line && lines[i..][1..] == lines[i + 1..];
        if IsDelta(line) {
          threw := HandleDelta(line);
          if threw {
            return;
          }
        } else if line != "" && pending != [] {
          var command := pending[0];
          pending := pending[1..];
          settled := settled + [Answered(command, line)];
        }
        i := i + 1;
      }
      threw := false;
    }

    method HandleClose()
      modifies this
      ensures Abs() == HandleDisconnect(old(Abs()))
    {
      connection := Disconnected;
      open := false;
      settled := settled + DropAll(pending);
      pending := [];
      if reconnect && attempt < maxAttempts {
        connection := Reconnecting;
        attempt := attempt + 1;
      }
    }
  }

  // ---------- runs ----------

  datatype Event = Sending(command: string) | Message(data: string) | Closed | Opened | Disconnecting

  function Handle(c: State, e: Event): State {
    match e
    case Sending(command) => Send(c, command)
    case Message(data) => HandleMessage(c, data)
    case Closed => HandleDisconnect(c)
    case Opened => HandleOpen(c)
    case Disconnecting => Disconnect(c)
  }

  function Run(c: State, es: seq<Event>): State {
    if es == [] then c else Handle(Run(c, Front(es)), Last(es))
  }

  function Commands(settled: seq<Settlement>): seq<string> {
    seq(|settled|, i requires 0 <= i < |settled| => settled[i].command)
  }

  /** Every command sent is settled or pending, in order. */
  predicate Accounted(c: State) {
    c.sent == Commands(c.settled) + c.pending
  }

  lemma {:induction false} RefreshAccounts(c: State, ids: seq<string>)
    requires Accounted(c)
    ensures Accounted(RefreshAll(c, ids))
    ensures RefreshAll(c, ids).settled == c.settled && RefreshAll(c, ids).buffer == c.buffer &&
            RefreshAll(c, ids).documents == c.documents
    decreases |ids|
  {
    if ids != [] {
      RefreshAccounts(Send(c, "GET " + ids[0]), ids[1..]);
    }
  }

  lemma LineAccounts(c: State, line: string)
    requires Accounted(c)
    ensures Accounted(HandleLine(c, line))
  {
    if line != "" {
      if IsDelta(line) {
        RefreshAccounts(c, c.documents);
      } else if c.pending != [] {
        assert c.pending == [c.pending[0]] + c.pending[1..];
        assert Commands(Settle(c, line).settled) == Commands(c.settled) + [c.pending[0]];
      }
    }
  }

  lemma {:induction false} LinesAccount(c: State, lines: seq<string>)
    requires Accounted(c)
    ensures Accounted(HandleLines(c, lines))
    decreases |lines|
  {
    if lines != [] && !LineThrows(lines[0]) {
      LineAccounts(c, lines[0]);
      LinesAccount(HandleLine(c, lines[0]), lines[1..]);
    }
  }

  /** In every run, in every state: the commands sent are those settled and then
    * those pending, in the order sent; so the counts add up. */
  lemma {:induction false} EveryCommandIsAccountedFor(c: State, es: seq<Event>)
    requires Accounted(c)
    ensures Accounted(Run(c, es))
    ensures var d := Run(c, es); |d.sent| == |d.settled| + |d.pending|
    decreases |es|
  {
    if es != [] {
      var d := Run(c, Front(es));
      EveryCommandIsAccountedFor(c, Front(es));
      match Last(es)
      case Message(data) => LinesAccount(d.(buffer := Leftover(d.buffer + data)), Lines(d.buffer + data));
      case Closed => assert Commands(d.settled + DropAll(d.pending)) == Commands(d.settled) + d.pending;
      case _ =>
    }
  }

  /** After the close event no command is left waiting, and each one dropped was still pending. */
  lemma CloseLeavesNonePending(c: State, es: seq<Event>)
    requires Accounted(c)
    ensures var d := Run(c, es + [Closed]);
            d.pending == [] && d.settled == Run(c, es).settled + DropAll(Run(c, es).pending) &&
                d.sent == Commands(d.settled)
  {
    assert Front(es + [Closed]) == es;
    EveryCommandIsAccountedFor(c, es + [Closed]);
  }

  // ---------- resolved or rejected ----------

  /** From the `n`-th on, settlements by a line are rejections exactly for error lines. */
  predicate Honest(settled: seq<Settlement>, n: nat) {
    forall i :: n <= i < |settled| ==>
      match settled[i]
      case Resolved(_, line) => !("-ERR" <= line)
      case Rejected(_, line) => "-ERR" <= line
      case Dropped(_) => true
  }

  lemma {:induction false} LinesAreHonest(c: State, lines: seq<string>, n: nat)
    requires Honest(c.settled, n)
    ensures Honest(HandleLines(c, lines).settled, n)
    decreases |lines|
  {
    hide DeltaEffect;
    if lines != [] && !LineThrows(lines[0]) {
      if IsDelta(lines[0]) {
        RefreshSettlesNothing(c, c.documents);
      }
      LinesAreHonest(HandleLine(c, lines[0]), lines[1..], n);
    }
  }

  /** In every run each command settled by a line is rejected exactly when the
    * line starts with "-ERR". */
  lemma {:induction false} SettlementsAreHonest(c: State, es: seq<Event>)
    ensures Honest(Run(c, es).settled, |c.settled|)
    decreases |es|
  {
    hide HandleLines;
    if es != [] {
      SettlementsAreHonest(c, Front(es));
      var d := Run(c, Front(es));
      match Last(es)
      case Message(data) =>
        LinesAreHonest(d.(buffer := Leftover(d.buffer + data)), Lines(d.buffer + data), |c.settled|);
      case _ =>
    }
  }

  /** The client is connected exactly while its socket is open. */
  lemma {:induction false} ConnectedIsOpen(c: State, es: seq<Event>)
    requires c.connection.Connected? <==> c.open
    ensures Run(c, es).connection.Connected? <==> Run(c, es).open
    decreases |es|
  {
    hide HandleLines, Lines, Leftover;
    if es != [] {
      ConnectedIsOpen(c, Front(es));
      var d := Run(c, Front(es));
      match Last(es)
      case Message(data) => LinesKeepTheConnection(d.(buffer := Leftover(d.buffer + data)), Lines(d.buffer + data));
      case _ =>
    }
  }

  // ---------- what a delta asks for ----------

  /** The GETs of these documents. */
  function Refreshes(ids: seq<string>): seq<string> {
    if ids == [] then [] else ["GET " + ids[0]] + Refreshes(ids[1..])
  }

  lemma {:induction false} RefreshAsks(c: State, ids: seq<string>)
    ensures RefreshAll(c, ids) ==
              if c.connection.Connected? && c.open
              then c.(pending := c.pending + Refreshes(ids), sent := c.sent + Refreshes(ids))
              else c
    decreases |ids|
  {
    if ids == [] {
      assert c.pending + [] == c.pending && c.sent + [] == c.sent;
    } else {
      var d := Send(c, "GET " + ids[0]);
      RefreshAsks(d, ids[1..]);
      if c.connection.Connected? && c.open {
        assert c.pending + ["GET " + ids[0]] + Refreshes(ids[1..]) == c.pending + Refreshes(ids);
        assert c.sent + ["GET " + ids[0]] + Refreshes(ids[1..]) == c.sent + Refreshes(ids);
      }
    }
  }

  /** A delta that can be decoded asks for every document again, in order, on an
    * open connection; any other delta changes nothing. */
  lemma DeltaAsksForAll(c: State, line: string)
    requires line != "" && line[0] == '#'
    ensures HandleLine(c, line) ==
              if c.connection.Connected? && c.open && DeltaEffect(line).Delivered?
              then c.(pending := c.pending + Refreshes(c.documents), sent := c.sent + Refreshes(c.documents))
              else c
  {
    hide DeltaEffect;
    RefreshAsks(c, c.documents);
  }

  // ---------- reconnecting ----------

  /** Closings since the last opening. */
  function Closings(es: seq<Event>): nat {
    if es == [] || Last(es).Opened? then 0 else Closings(Front(es)) + if Last(es).Closed? then 1 else 0
  }

  /** `disconnect` is not called. */
  predicate Stays(es: seq<Event>) {
    forall i :: 0 <= i < |es| ==> !es[i].Disconnecting?
  }

  /** Attempts are counted from the last opening and never pass the limit. */
  lemma {:induction false} AttemptsAreLimited(c: State, es: seq<Event>)
    requires c.attempt == 0 && c.reconnect && Stays(es)
    ensures var n := Closings(es);
            Run(c, es).attempt == (if n <= c.maxAttempts then n else c.maxAttempts) &&
            Run(c, es).reconnect && Run(c, es).maxAttempts == c.maxAttempts
    decreases |es|
  {
    hide HandleLines, Lines, Leftover;
    if es != [] {
      AttemptsAreLimited(c, Front(es));
      var d := Run(c, Front(es));
      match Last(es)
      case Message(data) => LinesKeepTheConnection(d.(buffer := Leftover(d.buffer + data)), Lines(d.buffer + data));
      case _ =>
    }
  }

  /** After a close the client waits to reconnect exactly when it may and has
    * not used up its attempts; after `disconnect` it never does. */
  lemma ReconnectsIff(c: State, es: seq<Event>)
    requires c.attempt == 0 && c.reconnect && Stays(es)
    ensures Run(c, es + [Closed]).connection.Reconnecting? <==> Closings(es) < c.maxAttempts
    ensures Run(c, es + [Closed]).connection.Disconnected? <==> Closings(es) >= c.maxAttempts
    ensures Run(c, es + [Disconnecting, Closed]).connection == Disconnected
  {
    hide HandleLines, Lines, Leftover, Run;
    AttemptsAreLimited(c, es);
    RunSnoc(c, es, Closed);
    RunSnoc(c, es, Disconnecting);
    RunSnoc(c, es + [Disconnecting], Closed);
    assert es + [Disconnecting, Closed] == es + [Disconnecting] + [Closed];
  }

  lemma RunSnoc(c: State, es: seq<Event>, e: Event)
    ensures Run(c, es + [e]) == Handle(Run(c, es), e)
  {
    hide Handle;
    assert Front(es + [e]) == es;
  }

  lemma {:induction false} LinesKeepTheConnection(c: State, lines: seq<string>)
    ensures var d := HandleLines(c, lines);
            d.attempt == c.attempt && d.reconnect == c.reconnect && d.maxAttempts == c.maxAttempts &&
            d.connection == c.connection && d.open == c.open
    decreases |lines|
  {
    hide DeltaEffect;
    if lines != [] && !LineThrows(lines[0]) {
      RefreshAsks(c, c.documents);
      LinesKeepTheConnection(HandleLine(c, lines[0]), lines[1..]);
    }
  }

  // ---------- matching responses to commands ----------

  /** The response lines: neither empty nor deltas. */
  function Answers(lines: seq<string>): seq<string> {
    if lines == [] then [] else (if IsResponse(lines[0]) then [lines[0]] else []) + Answers(lines[1..])
  }

  lemma {:induction false} AnswersAppend(a: seq<string>, b: seq<string>)
    ensures Answers(a + b) == Answers(a) + Answers(b)
  {
    if a == [] {
      assert a + b == b;
    } else {
      hide IsResponse;
      AnswersAppend(a[1..], b);
      assert (a + b)[1..] == a[1..] + b && (a + b)[0] == a[0];
      var first := if IsResponse(a[0]) then [a[0]] else [];
      assert first + (Answers(a[1..]) + Answers(b)) == first + Answers(a[1..]) + Answers(b);
    }
  }

  function LineOf(s: Settlement): Option<string> {
    match s
    case Dropped(_) => None
    case Resolved(_, line) => Some(line)
    case Rejected(_, line) => Some(line)
  }

  /** The settlements are exactly these lines, in order. */
  predicate SettledBy(settled: seq<Settlement>, answers: seq<string>) {
    |settled| == |answers| && forall i :: 0 <= i < |settled| ==> LineOf(settled[i]) == Some(answers[i])
  }

  /** No response line comes while nothing is pending. */
  predicate Prompt(c: State, lines: seq<string>)
    decreases |lines|
  {
    lines == [] || ((IsResponse(lines[0]) ==> c.pending != []) && Prompt(HandleLine(c, lines[0]), lines[1..]))
  }

  predicate NoneThrow(lines: seq<string>) {
    forall i :: 0 <= i < |lines| ==> !LineThrows(lines[i])
  }

  /** What `later` has settled beyond `earlier`. */
  function Since(earlier: State, later: State): seq<Settlement> {
    if |earlier.settled| <= |later.settled| then later.settled[|earlier.settled|..] else []
  }

  /** Settlements against answers: never more of them, and as many exactly when all are in step. */
  predicate InStep(settled: seq<Settlement>, answers: seq<string>, prompt: bool) {
    |settled| <= |answers| && (prompt <==> |settled| == |answers|) && (prompt ==> SettledBy(settled, answers))
  }

  lemma InStepAppend(s: seq<Settlement>, a: seq<string>, p: bool, t: seq<Settlement>, b: seq<string>, q: bool)
    requires InStep(s, a, p) && InStep(t, b, q)
    ensures InStep(s + t, a + b, p && q)
  {}

  lemma OneLine(c: State, line: string)
    ensures var d := HandleLine(c, line);
            c.settled <= d.settled && d.buffer == c.buffer &&
            InStep(Since(c, d), Answers([line]), IsResponse(line) ==> c.pending != [])
  {
    if IsDelta(line) {
      RefreshSettlesNothing(c, c.documents);
    }
  }

  lemma {:induction false} RefreshSettlesNothing(c: State, ids: seq<string>)
    ensures RefreshAll(c, ids).settled == c.settled && RefreshAll(c, ids).buffer == c.buffer
    decreases |ids|
  {
    if ids != [] {
      RefreshSettlesNothing(Send(c, "GET " + ids[0]), ids[1..]);
    }
  }

  lemma {:induction false} LinesMatch(c: State, lines: seq<string>)
    requires NoneThrow(lines)
    ensures var d := HandleLines(c, lines);
            c.settled <= d.settled && d.buffer == c.buffer && InStep(Since(c, d), Answers(lines), Prompt(c, lines))
    decreases |lines|
  {
    hide HandleLine, InStep, LineThrows, IsResponse;
    if lines == [] {
      assert Since(c, c) == [];
      InStepNothing();
    } else {
      var d := HandleLine(c, lines[0]);
      var e := HandleLines(d, lines[1..]);
      OneLine(c, lines[0]);
      LinesMatch(d, lines[1..]);
      InStepAppend(Since(c, d), Answers([lines[0]]), IsResponse(lines[0]) ==> c.pending != [],
                   Since(d, e), Answers(lines[1..]), Prompt(d, lines[1..]));
      assert Since(c, e) == Since(c, d) + Since(d, e);
      AnswersAppend([lines[0]], lines[1..]);
      assert lines == [lines[0]] + lines[1..];
    }
  }

  lemma InStepNothing()
    ensures InStep([], [], true)
  {}

  /** A delta that throws ends the handling: whatever follows it has no effect. */
  lemma {:induction false} NothingAfterAThrow(c: State, before: seq<string>, line: string, after: seq<string>)
    requires LineThrows(line)
    ensures HandleLines(c, before + [line] + after) == HandleLines(c, before)
    decreases |before|
  {
    hide HandleLine, LineThrows;
    var all := before + [line] + after;
    if before == [] {
      assert all[0] == line;
    } else {
      assert all[0] == before[0] && all[1..] == before[1..] + [line] + after;
      if !LineThrows(before[0]) {
        NothingAfterAThrow(HandleLine(c, before[0]), before[1..], line, after);
      }
    }
  }

  /** A concrete case: a delta whose payload is no Base64, and the answer behind it settles nothing. */
  lemma BadDeltaHidesTheAnswer(c: State)
    requires c.buffer == ""
    ensures LineThrows("#1 !")
    ensures HandleMessage(c, "#1 !\r\n+OK\r\n") == c
  {
    hide HandleLine, LineThrows, Lines, Leftover;
    var bad, text := "#1 !", "#1 !\r\n+OK\r\n";
    BangThrows();
    BadLineAndOk();
    assert c.buffer + text == text;
    NothingAfterAThrow(c, [], bad, ["+OK"]);
    assert [] + [bad] + ["+OK"] == [bad, "+OK"];
  }

  lemma BadLineAndOk()
    ensures Lines("#1 !\r\n+OK\r\n") == ["#1 !", "+OK"] && Leftover("#1 !\r\n+OK\r\n") == ""
  {
    var text := "#1 !\r\n+OK\r\n";
    FindCrlfIs(text, 4);
    assert text[..4] == "#1 !" && text[6..] == "+OK\r\n";
    OkIsALine();
  }

  lemma BangThrows()
    ensures LineThrows("#1 !")
  {
    hide Base64.Atob;
    var line := "#1 !";
    assert DigitsEnd(line, 1) == 2;
    assert SpacesEnd(line, 2) == 3;
    assert line[3..] == "!";
    BangIsNoBase64();
  }

  lemma BangIsNoBase64()
    ensures Base64.Atob("!") == None
  {}

  lemma OkIsALine()
    ensures Lines("+OK\r\n") == ["+OK"] && Leftover("+OK\r\n") == ""
  {
    FindCrlfIs("+OK\r\n", 3);
    assert "+OK\r\n"[..3] == "+OK" && "+OK\r\n"[5..] == "";
  }

  /** The answers that find a command pending, up to a delta that throws. */
  function Heard(c: State, lines: seq<string>): seq<string>
    decreases |lines|
  {
    if lines == [] || LineThrows(lines[0]) then [] else
    (if IsResponse(lines[0]) && c.pending != [] then [lines[0]] else []) + Heard(HandleLine(c, lines[0]), lines[1..])
  }

  /** The lines that settled something, in order. */
  function SettlingLines(settled: seq<Settlement>): seq<string> {
    if settled == [] then [] else
    SettlingLines(Front(settled)) +
    match LineOf(Last(settled))
    case None => []
    case Some(line) => [line]
  }

  lemma LineHeard(c: State, line: string)
    requires !LineThrows(line)
    ensures SettlingLines(HandleLine(c, line).settled) ==
              SettlingLines(c.settled) + if IsResponse(line) && c.pending != [] then [line] else []
  {
    hide DeltaEffect;
    if IsDelta(line) {
      RefreshSettlesNothing(c, c.documents);
    } else if line != "" && c.pending != [] {
      assert Front(HandleLine(c, line).settled) == c.settled;
    }
  }

  lemma {:induction false} LinesHeard(c: State, lines: seq<string>)
    ensures SettlingLines(HandleLines(c, lines).settled) == SettlingLines(c.settled) + Heard(c, lines)
    decreases |lines|
  {
    hide HandleLine, LineThrows, IsResponse, SettlingLines;
    if lines != [] && !LineThrows(lines[0]) {
      LineHeard(c, lines[0]);
      LinesHeard(HandleLine(c, lines[0]), lines[1..]);
      var first := if IsResponse(lines[0]) && c.pending != [] then [lines[0]] else [];
      var rest := Heard(HandleLine(c, lines[0]), lines[1..]);
      assert SettlingLines(c.settled) + first + rest == SettlingLines(c.settled) + (first + rest);
    }
  }

  lemma {:induction false} DroppingSettlesNoLine(settled: seq<Settlement>, pending: seq<string>)
    ensures SettlingLines(settled + DropAll(pending)) == SettlingLines(settled)
    decreases |pending|
  {
    if pending == [] {
      assert settled + DropAll(pending) == settled;
    } else {
      DroppingSettlesNoLine(settled, Front(pending));
      assert Front(settled + DropAll(pending)) == settled + DropAll(Front(pending));
    }
  }

  /** The answers heard in a run. */
  function HeardIn(c: State, es: seq<Event>): seq<string> {
    if es == [] then [] else
    HeardIn(c, Front(es)) +
    match Last(es)
    case Message(data) =>
      var d := Run(c, Front(es));
      Heard(d.(buffer := Leftover(d.buffer + data)), Lines(d.buffer + data))
    case _ => []
  }

  /** In every run, with any chunking, deltas, disconnections and answers out of
    * turn: what settles commands are exactly the answers heard, in order. */
  lemma {:induction false} SettlementsFollowAnswers(c: State, es: seq<Event>)
    ensures SettlingLines(Run(c, es).settled) == SettlingLines(c.settled) + HeardIn(c, es)
    decreases |es|
  {
    hide HandleLines, SettlingLines, Heard, Lines, Leftover;
    if es == [] {
      assert SettlingLines(c.settled) + [] == SettlingLines(c.settled);
    } else {
      var d := Run(c, Front(es));
      SettlementsFollowAnswers(c, Front(es));
      var earlier := HeardIn(c, Front(es));
      match Last(es)
      case Message(data) =>
        var text := d.buffer + data;
        var start := d.(buffer := Leftover(text));
        LinesHeard(start, Lines(text));
        assert SettlingLines(c.settled) + earlier + Heard(start, Lines(text))
            == SettlingLines(c.settled) + (earlier + Heard(start, Lines(text)));
      case Closed =>
        DroppingSettlesNoLine(d.settled, d.pending);
        assert earlier + [] == earlier;
      case _ =>
        assert earlier + [] == earlier;
    }
  }

  lemma {:induction false} SettlingLinesAppend(a: seq<Settlement>, b: seq<Settlement>)
    ensures SettlingLines(a + b) == SettlingLines(a) + SettlingLines(b)
    decreases |b|
  {
    hide LineOf;
    if b == [] {
      assert a + b == a;
      assert SettlingLines(a) + [] == SettlingLines(a);
    } else {
      SettlingLinesAppend(a, Front(b));
      assert Front(a + b) == a + Front(b);
      var last := match LineOf(Last(b)) case None => [] case Some(line) => [line];
      assert SettlingLines(a) + SettlingLines(Front(b)) + last == SettlingLines(a) + (SettlingLines(Front(b)) + last);
    }
  }

  /** Settlements by lines only are settled by exactly their lines. */
  lemma {:induction false} SettledByTheirLines(settled: seq<Settlement>)
    requires forall i :: 0 <= i < |settled| ==> LineOf(settled[i]).Some?
    ensures SettledBy(settled, SettlingLines(settled))
    decreases |settled|
  {
    hide LineOf;
    if settled != [] {
      SettledByTheirLines(Front(settled));
    }
  }

  lemma SamePrefix<T>(a: seq<T>, b: seq<T>, c: seq<T>)
    requires a + b == a + c
    ensures b == c
  {
    assert b == (a + b)[|a|..] && c == (a + c)[|a|..];
  }

  /** Within one connection. */
  predicate OneConnection(es: seq<Event>) {
    forall i :: 0 <= i < |es| ==> es[i].Sending? || es[i].Message?
  }

  /** All the text received. */
  function Received(es: seq<Event>): string {
    if es == [] then "" else Received(Front(es)) + if Last(es).Message? then Last(es).data else ""
  }

  /** At no moment of the run does a response line find nothing pending. */
  predicate PromptRun(c: State, es: seq<Event>) {
    es == [] ||
    (PromptRun(c, Front(es)) &&
     var d := Run(c, Front(es));
     match Last(es)
     case Message(data) => Prompt(d.(buffer := Leftover(d.buffer + data)), Lines(d.buffer + data))
     case _ => true)
  }

  /** Nothing is dropped before the connection closes. */
  ghost predicate DropsNothing(c: State, d: State) {
    c.settled <= d.settled && forall i :: |c.settled| <= i < |d.settled| ==> LineOf(d.settled[i]).Some?
  }

  lemma {:induction false} LinesDropNothing(c: State, lines: seq<string>)
    ensures DropsNothing(c, HandleLines(c, lines))
    decreases |lines|
  {
    if lines != [] && !LineThrows(lines[0]) {
      if IsDelta(lines[0]) {
        RefreshSettlesNothing(c, c.documents);
      }
      LinesDropNothing(HandleLine(c, lines[0]), lines[1..]);
    }
  }

  lemma {:induction false} NothingIsDropped(c: State, es: seq<Event>)
    requires OneConnection(es)
    ensures DropsNothing(c, Run(c, es))
    decreases |es|
  {
    hide HandleLines;
    if es != [] {
      NothingIsDropped(c, Front(es));
      var d := Run(c, Front(es));
      match Last(es)
      case Message(data) => LinesDropNothing(d.(buffer := Leftover(d.buffer + data)), Lines(d.buffer + data));
      case _ =>
    }
  }

  /** On one connection, with any chunking, deltas and answers out of turn: the
    * settlements are by exactly the answers heard, one each, in order. */
  lemma HeardAnswersSettle(c: State, es: seq<Event>)
    requires OneConnection(es)
    ensures c.settled <= Run(c, es).settled && SettledBy(Since(c, Run(c, es)), HeardIn(c, es))
  {
    hide Run, HeardIn, SettlingLines, SettledBy;
    var d := Run(c, es);
    NothingIsDropped(c, es);
    SettlementsFollowAnswers(c, es);
    assert d.settled == c.settled + Since(c, d);
    SettlingLinesAppend(c.settled, Since(c, d));
    SamePrefix(SettlingLines(c.settled), SettlingLines(Since(c, d)), HeardIn(c, es));
    SettledByTheirLines(Since(c, d));
  }

  /** On one connection, settlements against the answers received so far. */
  lemma {:induction false} AnswersInStep(c: State, es: seq<Event>)
    requires c.buffer == "" && OneConnection(es) && NoneThrow(Lines(Received(es)))
    ensures var d := Run(c, es);
            c.settled <= d.settled && d.buffer == Leftover(Received(es)) &&
            InStep(Since(c, d), Answers(Lines(Received(es))), PromptRun(c, es))
    decreases |es|
  {
    hide InStep, HandleLines, NoneThrow, Prompt, Answers, Lines, Leftover;
    if es == [] {
      assert Since(c, c) == [];
      InStepNothing();
      NoAnswers();
    } else {
      var text := Received(Front(es));
      var d := Run(c, Front(es));
      if Last(es).Message? {
        var data := Last(es).data;
        LinesAppend(text, data);
        assert NoneThrow(Lines(text)) by { FirstPart(Lines(text), Lines(Leftover(text) + data)); }
        AnswersInStep(c, Front(es));
        var lines := Lines(d.buffer + data);
        FirstPart(Lines(text), lines);
        var start := d.(buffer := Leftover(d.buffer + data));
        LinesMatch(start, lines);
        var e := Run(c, es);
        AnswersAppend(Lines(text), lines);
        InStepAppend(Since(c, d), Answers(Lines(text)), PromptRun(c, Front(es)), Since(d, e), Answers(lines),
            Prompt(start, lines));
        SinceSplits(c, d, e);
      } else {
        assert text + "" == text;
        AnswersInStep(c, Front(es));
      }
    }
  }

  /** On a connection that starts with an empty buffer, for every chunking of the
    * text and every placement of delta lines: the answers heard settle the commands
    * in order, and they are all the answers received, the k-th settling the k-th
    * command, exactly when none arrives with nothing pending. */
  lemma AnswersSettleInOrder(c: State, es: seq<Event>)
    requires c.buffer == "" && OneConnection(es) && NoneThrow(Lines(Received(es)))
    ensures var d := Run(c, es);
            c.settled <= d.settled && d.buffer == Leftover(Received(es)) &&
            SettledBy(Since(c, d), HeardIn(c, es)) &&
            InStep(Since(c, d), Answers(Lines(Received(es))), PromptRun(c, es))
  {
    hide *;
    AnswersInStep(c, es);
    HeardAnswersSettle(c, es);
  }

  lemma SinceSplits(c: State, d: State, e: State)
    requires c.settled <= d.settled <= e.settled
    ensures Since(c, e) == Since(c, d) + Since(d, e)
  {}

  lemma NoAnswers()
    ensures Answers(Lines("")) == [] && Lines("") == [] && Leftover("") == ""
  {}

  lemma FirstPart(a: seq<string>, b: seq<string>)
    requires NoneThrow(a + b)
    ensures NoneThrow(a) && NoneThrow(b)
  {
    hide LineThrows;
    forall i | 0 <= i < |a| ensures !LineThrows(a[i]) {
      assert (a + b)[i] == a[i];
    }
    forall i | 0 <= i < |b| ensures !LineThrows(b[i]) {
      assert (a + b)[|a| + i] == b[i];
    }
  }

  /** So the k-th answer settles the k-th command sent on the connection. */
  lemma KthAnswerSettlesKthCommand(c: State, es: seq<Event>, k: nat)
    requires c.buffer == "" && c.pending == [] && Accounted(c)
    requires OneConnection(es) && NoneThrow(Lines(Received(es))) && PromptRun(c, es)
    requires k < |Answers(Lines(Received(es)))|
    ensures var d := Run(c, es);
            |c.sent| + k < |d.sent| && |c.settled| + k < |d.settled| &&
            var s := d.settled[|c.settled| + k];
            var answer := Answers(Lines(Received(es)))[k];
            s.command == d.sent[|c.sent| + k] && LineOf(s) == Some(answer) && (s.Rejected? <==> "-ERR" <= answer)
  {
    hide *;
    SettlementsAreHonest(c, es);
    AnswersSettleInOrder(c, es);
    EveryCommandIsAccountedFor(c, es);
    PromptSettles(c, es);
    KthSettles(c, Run(c, es), Answers(Lines(Received(es))), k);
  }

  lemma PromptSettles(c: State, es: seq<Event>)
    requires PromptRun(c, es) && InStep(Since(c, Run(c, es)), Answers(Lines(Received(es))), PromptRun(c, es))
    ensures SettledBy(Since(c, Run(c, es)), Answers(Lines(Received(es))))
  {
    hide Run, Answers, Lines, Received, PromptRun;
  }

  lemma KthSettles(c: State, d: State, answers: seq<string>, k: nat)
    requires c.pending == [] && Accounted(c) && Accounted(d) && c.settled <= d.settled
    requires SettledBy(Since(c, d), answers) && Honest(d.settled, |c.settled|) && k < |answers|
    ensures |c.sent| + k < |d.sent| && |c.settled| + k < |d.settled|
    ensures var s := d.settled[|c.settled| + k];
            s.command == d.sent[|c.sent| + k] && LineOf(s) == Some(answers[k]) &&
            (s.Rejected? <==> "-ERR" <= answers[k])
  {
    var i := |c.settled| + k;
    assert Since(c, d)[k] == d.settled[i];
    assert |c.sent| == |c.settled|;
    assert d.sent[i] == Commands(d.settled)[i];
  }

  // ---------- the buffer across connections ----------

  /** The first lines after reconnecting are read as they were sent, for every
    * text, exactly when the old connection left nothing in the buffer; closing
    * keeps whatever was there. */
  lemma StaleBufferIff(buffer: string)
    requires Lines(buffer) == []
    ensures (forall text :: Lines(buffer + text) == Lines(text)) <==> buffer == ""
  {
    if buffer == "" {
      forall text ensures Lines(buffer + text) == Lines(text) {
        assert buffer + text == text;
      }
    } else {
      var i := FindCrlf(buffer, 0);
      assert i == |buffer|;
      var text := "\r\n";
      var s := buffer + text;
      assert s[|buffer|] == '\r' && s[|buffer| + 1] == '\n';
      forall k | 0 <= k < |buffer| ensures !CrlfAt(s, k) {
        assert CrlfAt(buffer, k) == (k + 1 < |buffer| && CrlfAt(s, k));
      }
      assert CrlfAt(s, |buffer|);
      FindCrlfIs(s, |buffer|);
      FindCrlfIs(text, 0);
      assert Lines(s)[0] == s[..|buffer|] && |Lines(s)[0]| > 0;
      assert Lines(text)[0] == text[..0];
    }
  }

  lemma CloseKeepsTheBuffer(c: State)
    ensures Run(c, [Closed, Opened]).buffer == c.buffer
    ensures Run(c, [Closed, Opened]).pending == [] && Run(c, [Closed, Opened]).connection == Connected
  {
    var es := [Closed, Opened];
    assert Front(es) == [Closed] && Front([Closed]) == [];
    assert Run(c, [Closed]) == HandleDisconnect(c);
  }

  // ---------- deltas from the server ----------

  lemma {:induction false} DigitsEndIs(s: string, i: nat, e: nat)
    requires i <= e <= |s| && (forall k :: i <= k < e ==> Decimal.IsDigit(s[k])) && (e < |s| ==> !Decimal.IsDigit(s[e]))
    ensures DigitsEnd(s, i) == e
    decreases e - i
  {
    if i < e {
      DigitsEndIs(s, i + 1, e);
    }
  }

  lemma EncodedIsPlain(d: Base64.Bytes)
    ensures Free(Base64.Encode(d), '\n') && Free(Base64.Encode(d), '\r')
    ensures Base64.Encode(d) != "" ==> !White(Base64.Encode(d)[0])
  {
    Base64.EncodeShape(d);
  }

  /** A delta line as the server encodes it never throws: the documents get the
    * server's bytes, and an empty delta is ignored. */
  lemma ServerDeltasAreDelivered(version: nat, delta: Base64.Bytes, json: Responses.Json)
    ensures DeltaEffect(Responses.Header(Responses.Delta(version, delta), json)) ==
              if delta == [] then Ignored else Delivered(delta)
  {
    hide Decimal.Print, Base64.Encode, Base64.Atob;
    var v, payload := Decimal.Print(version), Base64.Encode(delta);
    var line := "#" + v + " " + payload;
    EncodedIsPlain(delta);
    Base64.AtobOfEncode(delta);
    Base64.EncodeShape(delta);
    var d := 1 + |v|;
    assert forall k :: 1 <= k < d ==> line[k] == v[k - 1];
    DigitsEndIs(line, 1, d);
    assert line[d] == ' ';
    if delta == [] {
      assert SpacesEnd(line, d + 1) == d + 1 == |line|;
    } else {
      assert line[d + 1] == payload[0];
      assert SpacesEnd(line, d + 1) == d + 1;
      assert line[d + 1..] == payload;
    }
  }
}
