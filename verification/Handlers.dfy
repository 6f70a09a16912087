/** One client connection (crates/ussl-transport/src/handler.rs): what each
  * command does to the shared documents, and how `process` drains the parser. */
module Handlers {
  import opened Basics
  import opened Strings
  import opened Commands
  import D = Documents
  import DocumentRuns
  import opened Framing
  import Managers
  import PathEngine
  import PathParser
  import RateLimit
  import Values
  import Tokens
  import Strategies
  import Decimal

  /** Replies by kind and content; error messages and the JSON they are rendered
    * in are left open, and so is the order in which a map's entries are listed.
    * Hung stands for a command that never returns. */
  datatype Reply =
    | Okay(msg: string)
    | Err(code: string)
    | ValueReply(value: Values.Value)
    | Count(n: int)
    | PresenceReply(entries: seq<Managers.Presence>)
    | InfoReply(documents: nat, client: string, subscriptions: seq<string>)
    | KeysReply(ids: set<string>)
    | BackupReply(saved: set<Managers.Entry>)
    | Nothing
    | Pong
    | Hung

  /** What the server does not decide here: JSON, encoded sizes, backup texts. */
  datatype World = World(json: Json, size: D.Sizes, readBackup: string -> Option<seq<Managers.Entry>>)

  /** The connection's own fields. */
  datatype Conn = Conn(client: string, password: Option<string>, authenticated: bool, subscriptions: seq<string>)

  // ---------- commands on a document ----------

  function ReplyOf(r: DocumentRuns.Reply, code: string): Reply {
    match r
    case Accepted => Okay("")
    case Count(n) => Count(n)
    case Refused(_) => Err(code)
    case NoReply => Hung
  }

  /** A command served by an existing document. */
  function OnDocument(m: Managers.Manager, id: string, c: DocumentRuns.Command, now: U64, size: D.Sizes, code: string)
    : (Managers.Manager, Reply)
    requires id in m.docs
  {
    var (d, r) := DocumentRuns.Serve(m.docs[id], DocumentRuns.Timed(c, now), size);
    (m.(docs := m.docs[id := d]), ReplyOf(r, code))
  }

  function HandleGet(m: Managers.Manager, id: string, place: Option<string>): Reply {
    if !Managers.ValidId(id) then Err("INVALID_ID") else
    if id !in m.docs then Nothing else
    match D.Fetch(m.docs[id], place)
    case Done(v) => ValueReply(v)
    case Failed(_) => Err("GET_ERROR")
    case Hangs => Hung
  }

  /** SET, PUSH and INC create a missing document; INC creates a counter. */
  function HandleWrite(m: Managers.Manager, id: string, c: DocumentRuns.Command, now: U64, size: D.Sizes)
    : (Managers.Manager, Reply)
  {
    if !Managers.ValidId(id) then (m, Err("INVALID_ID")) else
    var strategy := if c.IncCmd? then D.CrdtCounter else D.Lww;
    var code := if c.IncCmd? then "INC_ERROR" else if c.PushCmd? then "PUSH_ERROR" else "SET_ERROR";
    OnDocument(Managers.GetOrCreate(m, id, strategy, now), id, c, now, size, code)
  }

  function HandleDelete(m: Managers.Manager, id: string, place: Option<string>, now: U64, size: D.Sizes)
    : (Managers.Manager, Reply)
  {
    if !Managers.ValidId(id) then (m, Err("INVALID_ID"))
    else if place.Some? then
      if id !in m.docs then (m, Err("NOT_FOUND"))
      else OnDocument(m, id, DocumentRuns.DelCmd(place), now, size, "DELETE_ERROR")
    else
      match Managers.Remove(m, id)
      case (m', Done(_)) => (m', Okay(""))
      case (m', _) => (m', Err("DELETE_ERROR"))
  }

  function HandleCompact(m: Managers.Manager, id: string, now: U64, size: D.Sizes): (Managers.Manager, Reply) {
    if !Managers.ValidId(id) then (m, Err("INVALID_ID"))
    else if id !in m.docs then (m, Err("NOT_FOUND"))
    else OnDocument(m, id, DocumentRuns.CompactCmd, now, size, "COMPACT_ERROR")
  }

  function HandleCreate(m: Managers.Manager, id: string, strategy: D.Strategy, ttl: Option<nat>, now: U64)
    : (Managers.Manager, Reply)
    requires ttl.Some? ==> ttl.value < TWO_64
  {
    if !Managers.ValidId(id) then (m, Err("INVALID_ID")) else
    match Managers.Create(m, id, strategy, if ttl.Some? then Some(ttl.value) else None, now)
    case (m', Done(_)) => (m', Okay(""))
    case (m', _) => (m', Err("CREATE_ERROR"))
  }

  /** A time of 0 removes the limit. */
  function HandleExpire(m: Managers.Manager, id: string, ms: nat): (Managers.Manager, Reply)
    requires ms < TWO_64
  {
    if !Managers.ValidId(id) then (m, Err("INVALID_ID")) else
    match Managers.SetExpire(m, id, if ms == 0 then None else Some(ms))
    case (m', Done(_)) => (m', Okay(""))
    case (m', _) => (m', Err("EXPIRE_ERROR"))
  }

  function HandleTtl(m: Managers.Manager, id: string, now: U64): Reply {
    if !Managers.ValidId(id) then Err("INVALID_ID") else
    match Managers.TtlReply(m, id, now)
    case Some(n) => Count(n)
    case None => Err("NOT_FOUND")
  }

  function HandlePresence(m: Managers.Manager, client: string, id: string, data: Option<Values.Value>)
    : (Managers.Manager, Reply)
  {
    if !Managers.ValidId(id) then (m, Err("INVALID_ID"))
    else if data.Some? then (Managers.SetPresence(m, client, id, data.value), Okay(""))
    else (m, PresenceReply(Managers.PresenceAt(m, id)))
  }

  function HandleRestore(m: Managers.Manager, text: string, w: World, now: U64): (Managers.Manager, Reply) {
    match w.readBackup(text)
    case None => (m, Err("INVALID_JSON"))
    case Some(entries) =>
      match Managers.Restore(m, entries, now)
      case (m', Done(n)) => (m', Count(n))
      case (m', _) => (m', Err("RESTORE_ERROR"))
  }

  function HandleAuth(c: Conn, password: string): (Conn, Reply) {
    match c.password
    case Some(expected) => if expected == password then (c.(authenticated := true), Okay("")) else (c, Err("WRONGPASS"))
    case None => (c, Okay("No authentication required"))
  }

  function Subscribed(c: Conn, pattern: string): Conn {
    if pattern in c.subscriptions then c else c.(subscriptions := c.subscriptions + [pattern])
  }

  function Without(ps: seq<string>, p: string): seq<string> {
    if ps == [] then [] else (if ps[0] == p then [] else [ps[0]]) + Without(ps[1..], p)
  }

  /** What the parser promises of a command's numbers. */
  predicate InRange(k: Kind) {
    match k
    case Create(_, Some(ms)) => ms < TWO_64
    case Expire(ms) => ms < TWO_64
    case Increment(_, delta) => -TWO_63 <= delta < TWO_63
    case _ => true
  }

  /** Commands that need a document id and have none are answered alike. */
  predicate NeedsId(k: Kind) {
    !k.Auth? && !k.Ping? && !k.Quit? && !k.Subscribe? && !k.Unsubscribe? && !k.Info? && !k.Keys? && !k.Backup? &&
        !k.Restore?
  }

  predicate AlwaysAllowed(k: Kind) {
    k.Auth? || k.Ping? || k.Quit?
  }

  /** `handle_command`, past the authentication check. */
  function Execute(c: Conn, m: Managers.Manager, cmd: Command, now: U64, w: World): (Conn, Managers.Manager, Reply)
    requires InRange(cmd.kind) && !AlwaysAllowed(cmd.kind)
  {
    if NeedsId(cmd.kind) && cmd.id.None? then (c, m, Err("MISSING_ARG")) else
    var id := if cmd.id.Some? then cmd.id.value else "";
    match cmd.kind
    case Create(strategy, ttl) => var r := HandleCreate(m, id, strategy, ttl, now); (c, r.0, r.1)
    case Get(place) => (c, m, HandleGet(m, id, place))
    case Set(path, v) => var r := HandleWrite(m, id, DocumentRuns.SetCmd(path, v), now, w.size); (c, r.0, r.1)
    case Push(path, v) => var r := HandleWrite(m, id, DocumentRuns.PushCmd(path, v), now, w.size); (c, r.0, r.1)
    case Increment(path, delta) =>
      var r := HandleWrite(m, id, DocumentRuns.IncCmd(path, delta), now, w.size);
      (c, r.0, r.1)
    case Delete(place) => var r := HandleDelete(m, id, place, now, w.size); (c, r.0, r.1)
    case Subscribe(pattern, _) => (Subscribed(c, pattern), m, Okay("Subscribed to " + pattern))
    case Unsubscribe(pattern) =>
      (c.(subscriptions := Without(c.subscriptions, pattern)), m, Okay("Unsubscribed from " + pattern))
    case Presence(data) => var r := HandlePresence(m, c.client, id, data); (c, r.0, r.1)
    case Info => (c, m, InfoReply(|m.docs|, c.client, c.subscriptions))
    case Keys(glob) => (c, m, KeysReply(Managers.Listed(m, glob)))
    case Compact => var r := HandleCompact(m, id, now, w.size); (c, r.0, r.1)
    case Expire(ms) => var r := HandleExpire(m, id, ms); (c, r.0, r.1)
    case Ttl => (c, m, HandleTtl(m, id, now))
    case Backup => (c, m, BackupReply(Managers.Saved(m, now)))
    case Restore(text) => var r := HandleRestore(m, text, w, now); (c, r.0, r.1)
  }

  /** `handle_command`. */
  function HandleCommand(c: Conn, m: Managers.Manager, cmd: Command, now: U64, w: World)
    : (Conn, Managers.Manager, Reply)
    requires InRange(cmd.kind)
  {
    match cmd.kind
    case Auth(password) => var r := HandleAuth(c, password); (r.0, m, r.1)
    case Ping => (c, m, Pong)
    case Quit => (c, m, Okay("Goodbye"))
    case _ =>
      if c.password.Some? && !c.authenticated then (c, m, Err("NOAUTH")) else Execute(c, m, cmd, now, w)
  }

  // ---------- commands that never return ----------

  /** Path texts on which the path engine may hang: an unclosed '['. */
  predicate Endless(path: string) {
    path != "" && !PathParser.Closed(path)
  }

  /** Commands that read or write at such a path. */
  predicate AtEndlessPath(k: Kind) {
    match k
    case Set(path, _) => Endless(path)
    case Push(path, _) => Endless(path)
    case Increment(path, _) => Endless(path)
    case Delete(Some(path)) => Endless(path)
    case Get(Some(path)) => Endless(path)
    case _ => false
  }

  /** What makes such a command reach the path engine, and not return from it. */
  predicate Reaches(m: Managers.Manager, id: string, k: Kind) {
    match k
    case Set(_, _) => id in m.docs ==> m.docs[id].meta.strategy != D.CrdtText
    case Delete(_) => id in m.docs
    case Get(Some(path)) =>
      id in m.docs && (m.docs[id].meta.strategy.Lww? || m.docs[id].meta.strategy.CrdtMap?) &&
      Values.Get(m.docs[id].data, PathParser.Parse(path)).Some?
    case _ => true
  }

  lemma FetchHangsIff(d: D.Doc, place: Option<string>)
    ensures D.Fetch(d, place).Hangs? <==>
              place.Some? && Endless(place.value) && (d.meta.strategy.Lww? || d.meta.strategy.CrdtMap?) &&
              Values.Get(d.data, PathParser.Parse(place.value)).Some?
  {
    if place.Some? {
      PathEngine.ReadIs(d.data, place.value);
    }
  }

  lemma ServeHangsIff(d: D.Doc, c: DocumentRuns.Timed, size: D.Sizes)
    ensures DocumentRuns.Serve(d, c, size).1.NoReply? <==>
              match c.cmd
              case SetCmd(path, _) => Endless(path) && d.meta.strategy != D.CrdtText
              case PushCmd(path, _) => Endless(path)
              case IncCmd(path, _) => Endless(path)
              case DelCmd(Some(path)) => Endless(path)
              case _ => false
  {
    hide DocumentRuns.AutoCompacted;
    match c.cmd
    case PushCmd(path, x) => PathEngine.ReadIs(d.data, path);
    case IncCmd(path, delta) => PathEngine.ReadIs(d.data, path);
    case _ =>
  }

  /** Exactly which commands never return, read off the command, the connection
    * and the documents before it: no document changes while it hangs. */
  lemma HungIff(c: Conn, m: Managers.Manager, cmd: Command, now: U64, w: World)
    requires InRange(cmd.kind)
    ensures HandleCommand(c, m, cmd, now, w).2 == Hung <==>
              !Locked(c) && cmd.id.Some? && Managers.ValidId(cmd.id.value) &&
              AtEndlessPath(cmd.kind) && Reaches(m, cmd.id.value, cmd.kind)
  {
    hide D.Fetch, DocumentRuns.Serve, Endless, Managers.Restore, Managers.TtlReply, Managers.ValidId;
    match cmd.kind
    case Get(place) =>
      if cmd.id.Some? && cmd.id.value in m.docs {
        FetchHangsIff(m.docs[cmd.id.value], place);
      }
    case Set(path, v) => WriteHangsIff(m, cmd, DocumentRuns.SetCmd(path, v), D.Lww, now, w);
    case Push(path, v) => WriteHangsIff(m, cmd, DocumentRuns.PushCmd(path, v), D.Lww, now, w);
    case Increment(path, delta) => WriteHangsIff(m, cmd, DocumentRuns.IncCmd(path, delta), D.CrdtCounter, now, w);
    case Delete(place) =>
      if cmd.id.Some? && cmd.id.value in m.docs {
        ServeHangsIff(m.docs[cmd.id.value], DocumentRuns.Timed(DocumentRuns.DelCmd(place), now), w.size);
      }
    case Compact =>
      if cmd.id.Some? && cmd.id.value in m.docs {
        ServeHangsIff(m.docs[cmd.id.value], DocumentRuns.Timed(DocumentRuns.CompactCmd, now), w.size);
      }
    case _ =>
  }

  lemma WriteHangsIff(m: Managers.Manager, cmd: Command, c: DocumentRuns.Command, strategy: D.Strategy, now: U64,
      w: World)
    requires strategy == if c.IncCmd? then D.CrdtCounter else D.Lww
    ensures cmd.id.Some? && Managers.ValidId(cmd.id.value) ==>
              var id := cmd.id.value;
              var d := Managers.GetOrCreate(m, id, strategy, now).docs[id];
              HandleWrite(m, id, c, now, w.size).1.Hung? <==>
              DocumentRuns.Serve(d, DocumentRuns.Timed(c, now), w.size).1.NoReply?
    ensures cmd.id.Some? ==>
              var d := Managers.GetOrCreate(m, cmd.id.value, strategy, now).docs[cmd.id.value];
              DocumentRuns.Serve(d, DocumentRuns.Timed(c, now), w.size).1.NoReply? <==>
                match c
                case SetCmd(path, _) => Endless(path) && d.meta.strategy != D.CrdtText
                case PushCmd(path, _) => Endless(path)
                case IncCmd(path, _) => Endless(path)
                case DelCmd(Some(path)) => Endless(path)
                case _ => false
  {
    hide DocumentRuns.Serve, Endless, Managers.ValidId;
    if cmd.id.Some? {
      var d := Managers.GetOrCreate(m, cmd.id.value, strategy, now).docs[cmd.id.value];
      ServeHangsIff(d, DocumentRuns.Timed(c, now), w.size);
    }
  }

  lemma {:induction false} CreateInRange(s: string, pos: nat, id: string, strategy: D.Strategy, ttl: Option<nat>)
    requires pos <= |s| && (ttl.Some? ==> ttl.value < TWO_64)
    ensures var p := CreateOptions(s, pos, id, strategy, ttl); p.Parsed? ==> InRange(p.command.kind)
    decreases |s| - pos
  {
    hide Tokens.NextToken, Upper, Strategies.ParseStrategy, Decimal.ParseBelow;
    match Tokens.NextToken(s, pos)
    case (None, _) =>
    case (Some(opt), p) =>
      match Tokens.NextToken(s, p)
      case (None, _) =>
      case (Some(t), q) =>
        if Strategies.ParseStrategy(t).Some? {
          CreateInRange(s, q, id, Strategies.ParseStrategy(t).value, ttl);
        }
        if Decimal.ParseUnsigned(t).Some? {
          CreateInRange(s, q, id, strategy, Some(Decimal.ParseUnsigned(t).value));
        }
  }

  lemma {:induction false} PlaceInRange(s: string, pos: nat, id: string, place: Option<string>)
    requires pos <= |s|
    ensures var p := GetOptions(s, pos, id, place); p.Parsed? ==> InRange(p.command.kind)
    ensures var p := SubscribeOptions(s, pos, id, place); p.Parsed? ==> InRange(p.command.kind)
    decreases |s| - pos
  {
    match Tokens.NextToken(s, pos)
    case (None, _) =>
    case (Some(opt), p) =>
      PlaceInRange(s, p, id, Some(opt));
      match Tokens.NextToken(s, p)
      case (None, _) =>
      case (Some(t), q) => PlaceInRange(s, q, id, Some(t));
  }

  lemma ParsedIsInRange(line: string, json: Json)
    ensures var p := ParseLine(line, json); p.Parsed? ==> InRange(p.command.kind)
  {
    hide Tokens.NextToken, Tokens.RestFrom, Upper, Trim, VerbOf, ParseValue, CreateOptions, GetOptions,
        SubscribeOptions, Decimal.ParseI64, Decimal.ParseBelow;
    var s := Trim(line);
    match Tokens.NextToken(s, 0)
    case (None, _) =>
    case (Some(word), p) =>
      match Tokens.NextToken(s, p)
      case (None, _) =>
      case (Some(id), q) =>
        CreateInRange(s, q, id, D.Lww, None);
        PlaceInRange(s, q, id, None);
  }

  // ---------- draining the parser ----------

  /** A connection: its own fields, its limiter, the parser's buffer, and the shared documents. */
  datatype Session = Session(conn: Conn, limiter: Option<RateLimit.Bucket>, buffer: string, m: Managers.Manager)

  /** The clocks read for the k-th line taken: a monotonic instant and the wall clock. */
  type Clock = nat -> (nat, U64)

  /** What draining does: the session, one reply per line taken, and what the
    * limiter was asked. */
  datatype Drained = Drained(s: Session, replies: seq<Reply>, taken: seq<Parsed>, asked: seq<RateLimit.Timed>,
      admitted: nat)

  predicate IsLimited(s: Session, cmd: Command) {
    s.limiter.Some? && !cmd.kind.Ping? && !cmd.kind.Quit?
  }

  function Admit(s: Session, cmd: Command, instant: nat): (Session, bool) {
    if !IsLimited(s, cmd) then (s, true) else
    var (b, ok) := RateLimit.Apply(s.limiter.value, RateLimit.Timed(RateLimit.Acquire, instant));
    (s.(limiter := Some(b)), ok)
  }

  /** What taking one line does, and whether `process` stops there. */
  datatype Taken = Taken(s: Session, reply: Reply, asked: seq<RateLimit.Timed>, admitted: nat, stop: bool)

  function TakeLine(s: Session, p: Parsed, k: nat, clock: Clock, w: World): Taken
    requires p.Parsed? ==> InRange(p.command.kind)
  {
    match p
    case Bad(_) => Taken(s, Err("PARSE_ERROR"), [], 0, true)
    case Parsed(cmd) =>
      var (s2, ok) := Admit(s, cmd, clock(k).0);
      var asked := if IsLimited(s, cmd) then [RateLimit.Timed(RateLimit.Acquire, clock(k).0)] else [];
      if !ok then Taken(s2, Err("RATE_LIMITED"), asked, 0, false) else
      var (c, m, r) := HandleCommand(s2.conn, s2.m, cmd, clock(k).1, w);
      Taken(s2.(conn := c, m := m), r, asked, if IsLimited(s, cmd) then 1 else 0, r.Hung?)
  }

  /** The next line of the buffer, taken. */
  function TakeNext(s: Session, k: nat, clock: Clock, w: World): Taken
    requires Cut(s.buffer, '\n').Some?
  {
    var (line, rest) := Cut(s.buffer, '\n').value;
    ParsedIsInRange(Chomp(line), w.json);
    TakeLine(s.(buffer := rest), ParseLine(Chomp(line), w.json), k, clock, w)
  }

  function NextParsed(s: Session, w: World): Parsed
    requires Cut(s.buffer, '\n').Some?
  {
    ParseLine(Chomp(Cut(s.buffer, '\n').value.0), w.json)
  }

  lemma TakeNextShortens(s: Session, k: nat, clock: Clock, w: World)
    requires Cut(s.buffer, '\n').Some?
    ensures TakeNext(s, k, clock, w).s.buffer == Cut(s.buffer, '\n').value.1
    ensures |TakeNext(s, k, clock, w).s.buffer| < |s.buffer|
    ensures TakeNext(s, k, clock, w).stop <==> NextParsed(s, w).Bad? || TakeNext(s, k, clock, w).reply.Hung?
  {
    hide HandleCommand, ParseLine, RateLimit.Apply, Chomp;
  }

  /** The loop of `process`: it stops at the first line that does not parse. */
  function Drain(s: Session, k: nat, clock: Clock, w: World): Drained
    decreases |s.buffer|
  {
    if Cut(s.buffer, '\n').None? then Drained(s, [], [], [], 0) else
    var t := TakeNext(s, k, clock, w);
    var p := NextParsed(s, w);
    TakeNextShortens(s, k, clock, w);
    if t.stop then Drained(t.s, [t.reply], [p], t.asked, t.admitted) else
    var d := Drain(t.s, k + 1, clock, w);
    Drained(d.s, [t.reply] + d.replies, [p] + d.taken, t.asked + d.asked, t.admitted + d.admitted)
  }

  lemma DrainUnfolds(s: Session, k: nat, clock: Clock, w: World)
    ensures Cut(s.buffer, '\n').None? ==> Drain(s, k, clock, w) == Drained(s, [], [], [], 0)
    ensures Cut(s.buffer, '\n').Some? ==>
      var t, p := TakeNext(s, k, clock, w), NextParsed(s, w);
      |t.s.buffer| < |s.buffer| &&
      Drain(s, k, clock, w) ==
        (if t.stop then Drained(t.s, [t.reply], [p], t.asked, t.admitted) else
         var d := Drain(t.s, k + 1, clock, w);
         Drained(d.s, [t.reply] + d.replies, [p] + d.taken, t.asked + d.asked, t.admitted + d.admitted))
  {
    hide TakeNext, NextParsed;
    if Cut(s.buffer, '\n').Some? {
      TakeNextShortens(s, k, clock, w);
    }
  }

  /** `process`: bytes beyond the buffer's limit are refused whole. */
  function Process(s: Session, data: string, k: nat, clock: Clock, w: World): Drained {
    if |s.buffer| + |data| > MAX_MESSAGE_SIZE then Drained(s, [Err("PARSE_ERROR")], [], [], 0)
    else Drain(s.(buffer := s.buffer + data), k, clock, w)
  }

  /** A chunk that would take the buffer past a mebibyte is refused whole; any other is drained. */
  lemma ChunkIsRefusedIff(s: Session, data: string, k: nat, clock: Clock, w: World)
    ensures Process(s, data, k, clock, w) ==
              if |s.buffer| + |data| > 1048576 then Drained(s, [Err("PARSE_ERROR")], [], [], 0)
              else Drain(s.(buffer := s.buffer + data), k, clock, w)
  {
    hide Drain;
  }

  lemma LinesEnd(s: string)
    ensures Cut(s, '\n').None? ==> Lines(s) == []
  {}

  /** Draining takes a prefix of the buffered lines, with one reply for each; it
    * leaves a complete line behind only after one that did not parse (or hung). */
  lemma {:induction false} DrainFrames(s: Session, k: nat, clock: Clock, w: World)
    ensures var d := Drain(s, k, clock, w);
            d.taken + Results(Lines(d.s.buffer), w.json) == Results(Lines(s.buffer), w.json) &&
            Leftover(d.s.buffer) == Leftover(s.buffer) && |d.replies| == |d.taken| &&
            (Lines(d.s.buffer) == [] ||
             (d.taken != [] && (d.taken[|d.taken| - 1].Bad? || d.replies[|d.replies| - 1].Hung?)))
    decreases |s.buffer|
  {
    hide Drain, TakeNext, ParseLine, Chomp, Results, Lines, Leftover;
    DrainUnfolds(s, k, clock, w);
    LinesEnd(s.buffer);
    if Cut(s.buffer, '\n').None? {
      assert [] + Results(Lines(s.buffer), w.json) == Results(Lines(s.buffer), w.json);
    } else {
      FirstResult(s.buffer, w.json);
      TakeNextShortens(s, k, clock, w);
      var t := TakeNext(s, k, clock, w);
      if !t.stop {
        DrainFrames(t.s, k + 1, clock, w);
        var d := Drain(t.s, k + 1, clock, w);
        assert [NextParsed(s, w)] + d.taken + Results(Lines(d.s.buffer), w.json)
            == [NextParsed(s, w)] + (d.taken + Results(Lines(d.s.buffer), w.json));
      }
    }
  }

  /** Only the last line taken can have failed to parse, or hung. */
  lemma {:induction false} StopsAtFirstBad(s: Session, k: nat, clock: Clock, w: World)
    ensures var d := Drain(s, k, clock, w);
            |d.replies| == |d.taken| &&
            forall i :: 0 <= i < |d.taken| - 1 ==> !d.taken[i].Bad? && !d.replies[i].Hung?
    decreases |s.buffer|
  {
    hide Drain, TakeNext, NextParsed;
    DrainUnfolds(s, k, clock, w);
    if Cut(s.buffer, '\n').Some? {
      TakeNextShortens(s, k, clock, w);
      var t := TakeNext(s, k, clock, w);
      if !t.stop {
        StopsAtFirstBad(t.s, k + 1, clock, w);
      }
    }
  }

  /** All but the last of these lines parse. */
  predicate ParsesBeforeLast(all: seq<Parsed>) {
    forall i :: 0 <= i < |all| - 1 ==> !all[i].Bad?
  }

  predicate AnyEndless(all: seq<Parsed>) {
    exists i :: 0 <= i < |all| && all[i].Parsed? && AtEndlessPath(all[i].command.kind)
  }

  lemma TakeHangsAtEndlessPath(s: Session, k: nat, clock: Clock, w: World)
    requires Cut(s.buffer, '\n').Some?
    ensures TakeNext(s, k, clock, w).reply.Hung? ==>
              NextParsed(s, w).Parsed? && AtEndlessPath(NextParsed(s, w).command.kind)
  {
    hide HandleCommand, ParseLine, RateLimit.Apply, Chomp, AtEndlessPath, InRange;
    var s1 := s.(buffer := Cut(s.buffer, '\n').value.1);
    match NextParsed(s, w)
    case Parsed(cmd) =>
      ParsedIsInRange(Chomp(Cut(s.buffer, '\n').value.0), w.json);
      var s2 := Admit(s1, cmd, clock(k).0).0;
      HungIff(s2.conn, s2.m, cmd, clock(k).1, w);
    case _ =>
  }

  lemma {:induction false} HangsAtEndlessPath(s: Session, k: nat, clock: Clock, w: World)
    ensures var d := Drain(s, k, clock, w);
            |d.replies| == |d.taken| &&
            forall i :: 0 <= i < |d.taken| && d.replies[i].Hung? ==>
              d.taken[i].Parsed? && AtEndlessPath(d.taken[i].command.kind)
    decreases |s.buffer|
  {
    hide Drain, TakeNext, NextParsed, AtEndlessPath;
    DrainUnfolds(s, k, clock, w);
    if Cut(s.buffer, '\n').Some? {
      TakeHangsAtEndlessPath(s, k, clock, w);
      var t := TakeNext(s, k, clock, w);
      if !t.stop {
        HangsAtEndlessPath(t.s, k + 1, clock, w);
      }
    }
  }

  /** When draining leaves no complete line behind. It never does if a line before
    * the last one fails to parse. On buffered commands without an unclosed path
    * that is the exact condition; in general one more: no command taken hangs. */
  lemma DrainsAllIff(s: Session, k: nat, clock: Clock, w: World)
    ensures var (d, all) := (Drain(s, k, clock, w), Results(Lines(s.buffer), w.json));
            (!AnyEndless(all) ==> (Lines(d.s.buffer) == [] <==> ParsesBeforeLast(all))) &&
            (Lines(d.s.buffer) == [] <==>
               ParsesBeforeLast(all) && forall i :: 0 <= i < |all| - 1 && i < |d.replies| ==> !d.replies[i].Hung?)
  {
    hide Drain, Lines, Leftover, AtEndlessPath;
    var (d, all) := (Drain(s, k, clock, w), Results(Lines(s.buffer), w.json));
    DrainFrames(s, k, clock, w);
    StopsAtFirstBad(s, k, clock, w);
    HangsAtEndlessPath(s, k, clock, w);
    assert |all| == |d.taken| + |Lines(d.s.buffer)|;
    assert forall i :: 0 <= i < |d.taken| ==> d.taken[i] == all[i];
    if Lines(d.s.buffer) != [] {
      assert |d.taken| - 1 < |all| - 1;
    }
  }

  /** A concrete case: an unknown command, and the PING behind it is not answered. */
  lemma BadLineHidesTheNext(s: Session, k: nat, clock: Clock, w: World)
    requires s.buffer == "NOPE\r\nPING\r\n"
    ensures var d := Drain(s, k, clock, w);
            d.taken == [Bad(InvalidCommand)] && d.replies == [Err("PARSE_ERROR")] && d.s.buffer == "PING\r\n"
  {
    hide Drain, TakeNext, ParseLine;
    var line, rest := "NOPE\r", "PING\r\n";
    CutIs(line, '\n', rest);
    assert s.buffer == line + ['\n'] + rest;
    assert Chomp(line) == "NOPE";
    NopeIsUnknown(w.json);
    assert NextParsed(s, w) == Bad(InvalidCommand);
    DrainUnfolds(s, k, clock, w);
    TakeNextShortens(s, k, clock, w);
    BadIsRefused(s, k, clock, w);
  }

  lemma NopeIsUnknown(json: Json)
    ensures ParseLine("NOPE", json) == Bad(InvalidCommand)
  {
    hide Tokens.NextToken, Upper, Find, ParseArguments;
    var s := "NOPE";
    assert Trim(s) == s;
    NopeIsOneToken(s);
  }

  lemma NopeIsOneToken(s: string)
    requires s == "NOPE"
    ensures Tokens.NextToken(s, 0) == (Some(s), 4) && Upper(s) == s
  {
    assert Find(s, 0, ' ') == 4;
    assert s[0..4] == s;
    assert forall i :: 0 <= i < 4 ==> UpperChar(s[i]) == s[i];
  }

  lemma BadIsRefused(s: Session, k: nat, clock: Clock, w: World)
    requires Cut(s.buffer, '\n').Some? && NextParsed(s, w).Bad?
    ensures TakeNext(s, k, clock, w).reply == Err("PARSE_ERROR")
  {
    hide ParseLine, HandleCommand, Chomp;
  }

  // ---------- a whole connection ----------

  /** Data that arrives, and the documents as other connections have left them by then. */
  datatype Arrival = Arrival(data: string, m: Managers.Manager)

  /** What happened so far: all replies, and the `answers` among them, one to
    * each line taken; the others are to chunks refused. */
  datatype Log = Log(
    s: Session, replies: seq<Reply>, taken: seq<Parsed>, answers: seq<Reply>, accepted: string, refused: nat,
    asked: seq<RateLimit.Timed>, admitted: nat)

  /** The last command taken never returned. */
  predicate Stuck(log: Log) {
    log.replies != [] && log.replies[|log.replies| - 1].Hung?
  }

  /** A connection whose command hangs takes nothing more. */
  function Serve(s: Session, arrivals: seq<Arrival>, clock: Clock, w: World): Log {
    if arrivals == [] then Log(s, [], [], [], "", 0, [], 0) else
    var before := Serve(s, arrivals[..|arrivals| - 1], clock, w);
    var last := arrivals[|arrivals| - 1];
    if Stuck(before) then before.(s := before.s.(m := last.m)) else
    var fits := |before.s.buffer| + |last.data| <= MAX_MESSAGE_SIZE;
    var d := Process(before.s.(m := last.m), last.data, |before.taken|, clock, w);
    Log(d.s, before.replies + d.replies, before.taken + d.taken,
        before.answers + (if fits then d.replies else []),
        before.accepted + (if fits then last.data else ""), before.refused + (if fits then 0 else 1),
        before.asked + d.asked, before.admitted + d.admitted)
  }

  /** On every connection, however its bytes arrive: the commands taken are a
    * prefix of the lines of the bytes accepted, the rest is still buffered, and
    * there is exactly one reply per line taken and one per chunk refused. */
  lemma {:induction false} EveryLineIsAnsweredOnce(s: Session, arrivals: seq<Arrival>, clock: Clock, w: World)
    requires s.buffer == ""
    ensures var log := Serve(s, arrivals, clock, w);
            log.taken + Results(Lines(log.s.buffer), w.json) == Results(Lines(log.accepted), w.json) &&
            Leftover(log.s.buffer) == Leftover(log.accepted) &&
            |log.replies| == |log.taken| + log.refused && |log.answers| == |log.taken| &&
            (log.refused == 0 ==> log.answers == log.replies)
    decreases |arrivals|
  {
    hide Drain, Lines, Leftover, Results;
    if arrivals == [] {
      NoLines(w.json);
    } else {
      var front := arrivals[..|arrivals| - 1];
      EveryLineIsAnsweredOnce(s, front, clock, w);
      var before := Serve(s, front, clock, w);
      var data := arrivals[|arrivals| - 1].data;
      if Stuck(before) {
      } else if |before.s.buffer| + |data| <= MAX_MESSAGE_SIZE {
        var s1 := before.s.(m := arrivals[|arrivals| - 1].m, buffer := before.s.buffer + data);
        DrainFrames(s1, |before.taken|, clock, w);
        LinesAppend(before.s.buffer, data);
        LinesAppend(before.accepted, data);
        ResultsAppend(Lines(before.s.buffer), Lines(Leftover(before.s.buffer) + data), w.json);
        ResultsAppend(Lines(before.accepted), Lines(Leftover(before.accepted) + data), w.json);
        var d := Drain(s1, |before.taken|, clock, w);
        assert before.taken + d.taken + Results(Lines(d.s.buffer), w.json)
            == before.taken + (d.taken + Results(Lines(d.s.buffer), w.json));
      } else {
        assert before.accepted + "" == before.accepted;
        assert before.taken + [] == before.taken;
      }
    }
  }

  lemma NoLines(json: Json)
    ensures Lines("") == [] && Leftover("") == "" && Results([], json) == []
  {}

  // ---------- rate limiting ----------

  /** The limiter's state is that of the run of questions it was asked. */
  predicate LimiterIs(s: Session, b: RateLimit.Bucket, asked: seq<RateLimit.Timed>, admitted: nat) {
    var r := RateLimit.RunOf(b, asked);
    s.limiter == Some(r.b) && r.admitted == admitted && r.resets == 0
  }

  lemma AskedOnce(b: RateLimit.Bucket, asked: seq<RateLimit.Timed>, t: RateLimit.Timed)
    ensures var r, (c, ok) := RateLimit.RunOf(b, asked), RateLimit.Apply(RateLimit.RunOf(b, asked).b, t);
            RateLimit.RunOf(b, asked + [t]) ==
                RateLimit.Run(c, r.admitted + (if ok then 1 else 0), r.resets + if t.op.Reset? then 1 else 0)
  {
    assert Front(asked + [t]) == asked;
  }

  lemma TakeLimits(s: Session, k: nat, clock: Clock, w: World, b: RateLimit.Bucket, asked: seq<RateLimit.Timed>,
      admitted: nat)
    requires Cut(s.buffer, '\n').Some? && LimiterIs(s, b, asked, admitted)
    ensures var t := TakeNext(s, k, clock, w); LimiterIs(t.s, b, asked + t.asked, admitted + t.admitted)
  {
    hide HandleCommand, ParseLine, RateLimit.Apply, RateLimit.RunOf, Chomp, InRange;
    AskedOnce(b, asked, RateLimit.Timed(RateLimit.Acquire, clock(k).0));
    assert asked + [] == asked;
  }

  lemma {:induction false} DrainLimits(s: Session, k: nat, clock: Clock, w: World, b: RateLimit.Bucket,
      asked: seq<RateLimit.Timed>, admitted: nat)
    requires LimiterIs(s, b, asked, admitted)
    ensures var d := Drain(s, k, clock, w); LimiterIs(d.s, b, asked + d.asked, admitted + d.admitted)
    decreases |s.buffer|
  {
    hide Drain, TakeNext, LimiterIs, NextParsed, Cut;
    DrainUnfolds(s, k, clock, w);
    if Cut(s.buffer, '\n').None? {
      assert asked + [] == asked;
    } else {
      TakeLimits(s, k, clock, w, b, asked, admitted);
      var t := TakeNext(s, k, clock, w);
      if !t.stop {
        DrainLimits(t.s, k + 1, clock, w, b, asked + t.asked, admitted + t.admitted);
        var d := Drain(t.s, k + 1, clock, w);
        assert asked + t.asked + d.asked == asked + (t.asked + d.asked);
      }
    }
  }

  lemma {:induction false} ServeLimits(s: Session, arrivals: seq<Arrival>, clock: Clock, w: World, b: RateLimit.Bucket)
    requires s.limiter == Some(b)
    ensures var log := Serve(s, arrivals, clock, w); LimiterIs(log.s, b, log.asked, log.admitted)
    decreases |arrivals|
  {
    hide Drain;
    if arrivals != [] {
      var front := arrivals[..|arrivals| - 1];
      ServeLimits(s, front, clock, w, b);
      var before := Serve(s, front, clock, w);
      var last := arrivals[|arrivals| - 1];
      if Stuck(before) {
      } else if |before.s.buffer| + |last.data| <= MAX_MESSAGE_SIZE {
        DrainLimits(before.s.(m := last.m, buffer := before.s.buffer + last.data), |before.taken|, clock, w, b,
            before.asked, before.admitted);
      } else {
        assert before.asked + [] == before.asked;
      }
    }
  }

  /** A clock that never goes back, from `created` on. */
  ghost predicate Ticks(clock: Clock, created: nat) {
    created <= clock(0).0 && forall j: nat, k: nat :: j <= k ==> clock(j).0 <= clock(k).0
  }

  /** The questions so far came in order, and none after the clock's `k`-th reading. */
  predicate InOrder(created: nat, asked: seq<RateLimit.Timed>, clock: Clock, k: nat) {
    RateLimit.Monotone(created, asked) && RateLimit.End(created, asked) <= clock(k).0
  }

  lemma AskedInOrder(created: nat, asked: seq<RateLimit.Timed>, more: seq<RateLimit.Timed>, clock: Clock, k: nat)
    requires Ticks(clock, created) && InOrder(created, asked, clock, k)
    requires more == [] || more == [RateLimit.Timed(RateLimit.Acquire, clock(k).0)]
    ensures InOrder(created, asked + more, clock, k + 1)
  {
    assert clock(k).0 <= clock(k + 1).0;
    if more == [] {
      assert asked + more == asked;
    } else {
      assert Front(asked + more) == asked;
    }
  }

  lemma TakeAsksOnce(s: Session, k: nat, clock: Clock, w: World)
    requires Cut(s.buffer, '\n').Some?
    ensures var asked := TakeNext(s, k, clock, w).asked;
            asked == [] || asked == [RateLimit.Timed(RateLimit.Acquire, clock(k).0)]
  {
    hide HandleCommand, ParseLine, RateLimit.Apply, Chomp;
  }

  lemma {:induction false} DrainAsksInOrder(s: Session, k: nat, clock: Clock, w: World, created: nat,
      asked: seq<RateLimit.Timed>)
    requires Ticks(clock, created) && InOrder(created, asked, clock, k)
    ensures var d := Drain(s, k, clock, w); InOrder(created, asked + d.asked, clock, k + |d.taken|)
    decreases |s.buffer|
  {
    hide Drain, TakeNext, NextParsed, Cut, InOrder, Ticks;
    DrainUnfolds(s, k, clock, w);
    if Cut(s.buffer, '\n').None? {
      assert asked + [] == asked;
    } else {
      var t := TakeNext(s, k, clock, w);
      TakeAsksOnce(s, k, clock, w);
      AskedInOrder(created, asked, t.asked, clock, k);
      if !t.stop {
        DrainAsksInOrder(t.s, k + 1, clock, w, created, asked + t.asked);
        var d := Drain(t.s, k + 1, clock, w);
        assert asked + t.asked + d.asked == asked + (t.asked + d.asked);
      }
    }
  }

  lemma {:induction false} ServeAsksInOrder(s: Session, arrivals: seq<Arrival>, clock: Clock, w: World, created: nat)
    requires Ticks(clock, created)
    ensures var log := Serve(s, arrivals, clock, w); InOrder(created, log.asked, clock, |log.taken|)
    decreases |arrivals|
  {
    hide Drain;
    if arrivals != [] {
      var last := arrivals[|arrivals| - 1];
      var before := Serve(s, arrivals[..|arrivals| - 1], clock, w);
      ServeAsksInOrder(s, arrivals[..|arrivals| - 1], clock, w, created);
      if Stuck(before) {
      } else if |before.s.buffer| + |last.data| <= MAX_MESSAGE_SIZE {
        var s1 := before.s.(m := last.m, buffer := before.s.buffer + last.data);
        DrainAsksInOrder(s1, |before.taken|, clock, w, created, before.asked);
      } else {
        assert before.asked + [] == before.asked;
      }
    }
  }

  /** A command other than PING and QUIT that was not turned away. */
  predicate Executed(p: Parsed, answer: Reply) {
    p.Parsed? && !p.command.kind.Ping? && !p.command.kind.Quit? && answer != Err("RATE_LIMITED")
  }

  function CountExecuted(taken: seq<Parsed>, answers: seq<Reply>): nat
    requires |taken| == |answers|
  {
    if taken == [] then 0 else
    (if Executed(taken[0], answers[0]) then 1 else 0) + CountExecuted(taken[1..], answers[1..])
  }

  lemma {:induction false} CountExecutedAppend(t: seq<Parsed>, a: seq<Reply>, u: seq<Parsed>, b: seq<Reply>)
    requires |t| == |a| && |u| == |b|
    ensures CountExecuted(t + u, a + b) == CountExecuted(t, a) + CountExecuted(u, b)
    decreases |t|
  {
    hide Executed;
    if t == [] {
      assert t + u == u && a + b == b;
    } else {
      CountExecutedAppend(t[1..], a[1..], u, b);
      assert (t + u)[1..] == t[1..] + u && (a + b)[1..] == a[1..] + b;
      assert (t + u)[0] == t[0] && (a + b)[0] == a[0];
    }
  }

  /** The limiter alone turns commands away. */
  lemma NoCommandIsRateLimited(c: Conn, m: Managers.Manager, cmd: Command, now: U64, w: World)
    requires InRange(cmd.kind)
    ensures HandleCommand(c, m, cmd, now, w).2 != Err("RATE_LIMITED")
  {
    hide D.Fetch, DocumentRuns.Serve, Managers.Restore, Managers.TtlReply, Managers.ValidId;
  }

  /** What the limiter does to one line: a command other than PING and QUIT is
    * turned away exactly when, while nothing wraps, the bucket holds less than
    * a token, and then nothing else happens; without a limiter none is. */
  lemma LimitedIff(s: Session, k: nat, clock: Clock, w: World)
    requires Cut(s.buffer, '\n').Some?
    ensures var (t, p) := (TakeNext(s, k, clock, w), NextParsed(s, w));
            var exempt := p.Bad? || p.command.kind.Ping? || p.command.kind.Quit?;
            (t.reply == Err("RATE_LIMITED") ==> !exempt && s.limiter.Some?) &&
            (t.reply == Err("RATE_LIMITED") ==> t.s.m == s.m && t.s.conn == s.conn) &&
            (!exempt && s.limiter.Some? && RateLimit.Valid(s.limiter.value) &&
             RateLimit.Exact(s.limiter.value, clock(k).0) ==>
               var b := s.limiter.value;
               var credit := b.perMs * RateLimit.Ms(b.last, clock(k).0);
               var held := if b.tokens + credit > b.max then b.max else b.tokens + credit;
               t.reply == Err("RATE_LIMITED") <==> held < 1000)
  {
    hide HandleCommand, ParseLine, RateLimit.Apply, RateLimit.Exact, RateLimit.Ms, Chomp, InRange;
    match NextParsed(s, w)
    case Parsed(cmd) =>
      ParsedIsInRange(Chomp(Cut(s.buffer, '\n').value.0), w.json);
      var s2 := Admit(s.(buffer := Cut(s.buffer, '\n').value.1), cmd, clock(k).0).0;
      NoCommandIsRateLimited(s2.conn, s2.m, cmd, clock(k).1, w);
      if s.limiter.Some? && RateLimit.Valid(s.limiter.value) && RateLimit.Exact(s.limiter.value, clock(k).0) {
        RateLimit.AdmittedIff(s.limiter.value, clock(k).0);
      }
    case _ =>
  }

  lemma TakeCounts(s: Session, k: nat, clock: Clock, w: World)
    requires Cut(s.buffer, '\n').Some? && s.limiter.Some?
    ensures var t := TakeNext(s, k, clock, w);
            t.s.limiter.Some? && t.admitted == if Executed(NextParsed(s, w), t.reply) then 1 else 0
  {
    hide HandleCommand, ParseLine, RateLimit.Apply, Chomp, InRange;
    match NextParsed(s, w)
    case Parsed(cmd) =>
      ParsedIsInRange(Chomp(Cut(s.buffer, '\n').value.0), w.json);
      var s2 := Admit(s.(buffer := Cut(s.buffer, '\n').value.1), cmd, clock(k).0).0;
      NoCommandIsRateLimited(s2.conn, s2.m, cmd, clock(k).1, w);
    case _ =>
  }

  lemma {:induction false} DrainCounts(s: Session, k: nat, clock: Clock, w: World)
    requires s.limiter.Some?
    ensures var d := Drain(s, k, clock, w);
            d.s.limiter.Some? && |d.replies| == |d.taken| && d.admitted == CountExecuted(d.taken, d.replies)
    decreases |s.buffer|
  {
    hide Drain, TakeNext, NextParsed, Executed;
    DrainUnfolds(s, k, clock, w);
    if Cut(s.buffer, '\n').Some? {
      TakeCounts(s, k, clock, w);
      var t := TakeNext(s, k, clock, w);
      if !t.stop {
        DrainCounts(t.s, k + 1, clock, w);
        var d := Drain(t.s, k + 1, clock, w);
        CountExecutedAppend([NextParsed(s, w)], [t.reply], d.taken, d.replies);
      }
    }
  }

  lemma {:induction false} ServeCounts(s: Session, arrivals: seq<Arrival>, clock: Clock, w: World)
    requires s.limiter.Some?
    ensures var log := Serve(s, arrivals, clock, w);
            log.s.limiter.Some? && |log.answers| == |log.taken| && log.admitted == CountExecuted(log.taken, log.answers)
    decreases |arrivals|
  {
    hide Drain;
    if arrivals != [] {
      var last := arrivals[|arrivals| - 1];
      var before := Serve(s, arrivals[..|arrivals| - 1], clock, w);
      ServeCounts(s, arrivals[..|arrivals| - 1], clock, w);
      if Stuck(before) {
      } else if |before.s.buffer| + |last.data| <= MAX_MESSAGE_SIZE {
        var s1 := before.s.(m := last.m, buffer := before.s.buffer + last.data);
        DrainCounts(s1, |before.taken|, clock, w);
        var d := Drain(s1, |before.taken|, clock, w);
        CountExecutedAppend(before.taken, before.answers, d.taken, d.replies);
      } else {
        assert before.taken + [] == before.taken && before.answers + [] == before.answers;
      }
    }
  }

  /** Whenever its clock never goes back, however its bytes arrive, on a
    * rate-limited connection the commands taken, PING and QUIT aside, that are not
    * answered RATE_LIMITED are no more than burst and rate allow since it was opened. */
  lemma ConnectionKeepsTheRate(s: Session, arrivals: seq<Arrival>, clock: Clock, w: World,
      perSecond: RateLimit.U32, burst: RateLimit.U32, created: nat)
    requires s.limiter == Some(RateLimit.NewBucket(perSecond, burst, created)) && Ticks(clock, created)
    ensures |Serve(s, arrivals, clock, w).answers| == |Serve(s, arrivals, clock, w).taken|
    ensures var log := Serve(s, arrivals, clock, w);
            var n := CountExecuted(log.taken, log.answers);
            1000 * n <= burst * 1000 + perSecond * RateLimit.Ms(created, RateLimit.End(created, log.asked)) &&
            1000 * n <= burst * 1000 + perSecond * RateLimit.Ms(created, clock(|log.taken|).0)
  {
    hide Serve;
    var log := Serve(s, arrivals, clock, w);
    ServeCounts(s, arrivals, clock, w);
    ServeAsksInOrder(s, arrivals, clock, w, created);
    ServeLimits(s, arrivals, clock, w, RateLimit.NewBucket(perSecond, burst, created));
    RateLimit.RateBound(perSecond, burst, created, log.asked);
    RateLimit.MonotoneEnd(created, log.asked);
    var (e, now) := (RateLimit.End(created, log.asked), clock(|log.taken|).0);
    RateLimit.MsAdds(created, e, now);
    RateLimit.MulMonotone(perSecond, RateLimit.Ms(created, e), RateLimit.Ms(created, now));
  }

  predicate IsExempt(p: Parsed) {
    p.Bad? || p.command.kind.Ping? || p.command.kind.Quit?
  }

  /** On every connection a line that does not parse, a PING or a QUIT is never
    * answered RATE_LIMITED, and without a limiter nothing is. */
  lemma {:induction false} ExemptIsNeverLimited(s: Session, k: nat, clock: Clock, w: World)
    ensures var d := Drain(s, k, clock, w);
            |d.replies| == |d.taken| && (d.s.limiter.None? <==> s.limiter.None?) &&
            forall i :: 0 <= i < |d.taken| && (IsExempt(d.taken[i]) || s.limiter.None?) ==>
              d.replies[i] != Err("RATE_LIMITED")
    decreases |s.buffer|
  {
    hide Drain, TakeNext, NextParsed;
    DrainUnfolds(s, k, clock, w);
    if Cut(s.buffer, '\n').Some? {
      LimitedIff(s, k, clock, w);
      LimiterStays(s, k, clock, w);
      var t := TakeNext(s, k, clock, w);
      if !t.stop {
        ExemptIsNeverLimited(t.s, k + 1, clock, w);
      }
    }
  }

  lemma LimiterStays(s: Session, k: nat, clock: Clock, w: World)
    requires Cut(s.buffer, '\n').Some?
    ensures TakeNext(s, k, clock, w).s.limiter.None? <==> s.limiter.None?
  {
    hide HandleCommand, ParseLine, RateLimit.Apply, Chomp, InRange;
  }

  // ---------- authentication ----------

  /** The right password. */
  predicate Opens(c: Conn, p: Parsed) {
    p.Parsed? && p.command.kind.Auth? && c.password == Some(p.command.kind.password)
  }

  predicate NoneOpens(c: Conn, taken: seq<Parsed>) {
    forall i :: 0 <= i < |taken| ==> !Opens(c, taken[i])
  }

  lemma NoneOpensEither(c: Conn, a: seq<Parsed>, b: seq<Parsed>)
    requires NoneOpens(c, a + b)
    ensures NoneOpens(c, a) && NoneOpens(c, b)
  {
    forall i | 0 <= i < |a| ensures !Opens(c, a[i]) {
      assert a[i] == (a + b)[i];
    }
    forall i | 0 <= i < |b| ensures !Opens(c, b[i]) {
      assert b[i] == (a + b)[|a| + i];
    }
  }

  predicate Locked(c: Conn) {
    c.password.Some? && !c.authenticated
  }

  lemma LockedTakesNothing(s: Session, k: nat, clock: Clock, w: World)
    requires Cut(s.buffer, '\n').Some? && Locked(s.conn)
    ensures var t := TakeNext(s, k, clock, w);
            t.s.m == s.m && t.s.conn.password == s.conn.password &&
                (Locked(t.s.conn) <==> t.reply == Err("RATE_LIMITED") || !Opens(s.conn, NextParsed(s, w)))
  {
    hide Execute, ParseLine, RateLimit.Apply, Chomp;
  }

  lemma {:induction false} DrainStaysLocked(s: Session, k: nat, clock: Clock, w: World)
    requires Locked(s.conn)
    requires NoneOpens(s.conn, Drain(s, k, clock, w).taken)
    ensures var d := Drain(s, k, clock, w); d.s.m == s.m && Locked(d.s.conn) && d.s.conn.password == s.conn.password
    decreases |s.buffer|
  {
    hide Drain, TakeNext, NextParsed;
    DrainUnfolds(s, k, clock, w);
    if Cut(s.buffer, '\n').Some? {
      LockedTakesNothing(s, k, clock, w);
      var t := TakeNext(s, k, clock, w);
      var all := Drain(s, k, clock, w).taken;
      assert all[0] == NextParsed(s, w);
      if !t.stop {
        var d := Drain(t.s, k + 1, clock, w);
        assert forall i :: 0 <= i < |d.taken| ==> d.taken[i] == all[i + 1];
        DrainStaysLocked(t.s, k + 1, clock, w);
      }
    }
  }

  /** Without the right password nothing a connection ever sends touches a
    * document or changes what it is allowed to do: the documents are as other
    * connections left them. */
  lemma {:induction false} NothingHappensUnauthenticated(s: Session, arrivals: seq<Arrival>, clock: Clock, w: World)
    requires Locked(s.conn)
    requires NoneOpens(s.conn, Serve(s, arrivals, clock, w).taken)
    ensures var log := Serve(s, arrivals, clock, w);
            Locked(log.s.conn) && log.s.conn.password == s.conn.password &&
            log.s.m == if arrivals == [] then s.m else Last(arrivals).m
    decreases |arrivals|
  {
    hide Drain;
    if arrivals != [] {
      var log, before := Serve(s, arrivals, clock, w), Serve(s, Front(arrivals), clock, w);
      if Stuck(before) {
        NothingHappensUnauthenticated(s, Front(arrivals), clock, w);
      } else {
        var d := Process(before.s.(m := Last(arrivals).m), Last(arrivals).data, |before.taken|, clock, w);
        assert log.taken == before.taken + d.taken;
        NoneOpensEither(s.conn, before.taken, d.taken);
        NothingHappensUnauthenticated(s, Front(arrivals), clock, w);
        if |before.s.buffer| + |Last(arrivals).data| <= MAX_MESSAGE_SIZE {
          var s1 := before.s.(m := Last(arrivals).m, buffer := before.s.buffer + Last(arrivals).data);
          DrainStaysLocked(s1, |before.taken|, clock, w);
        }
      }
    }
  }

  // ---------- reading back what was set ----------

  function SetCommand(id: string, path: string, v: Values.Value): Command {
    Command(Set(path, v), Some(id))
  }

  function GetCommand(id: string, place: Option<string>): Command {
    Command(Get(place), Some(id))
  }

  /** A SET that was accepted, then a GET of the same path, on a connection that
    * may use both: the reply is the value set exactly in these cases, whether
    * the SET created the document or not and whatever compaction followed it. */
  lemma SetThenGetIff(c: Conn, m: Managers.Manager, id: string, path: string, v: Values.Value, now: U64, later: U64,
      w: World)
    requires !Locked(c)
    requires HandleCommand(c, m, SetCommand(id, path, v), now, w).2 == Okay("")
    ensures var after := HandleCommand(c, m, SetCommand(id, path, v), now, w).1;
            var doc := Managers.GetOrCreate(m, id, D.Lww, now).docs[id];
            HandleCommand(c, after, GetCommand(id, Some(path)), later, w).2 == ValueReply(v) <==>
              match doc.meta.strategy
              case CrdtText => true
              case CrdtCounter => path == "" || (!PathEngine.Names(path) && doc.data == v)
              case CrdtSet => path == "" || (!PathEngine.Names(path) && doc.data == v)
              case _ => PathEngine.Names(path) || doc.data == v
  {
    hide D.Fetch, D.Set, DocumentRuns.AutoCompacted, PathEngine.Names;
    var doc := Managers.GetOrCreate(m, id, D.Lww, now).docs[id];
    var written := D.Set(doc, path, v, now);
    assert DocumentRuns.Settle(written, w.size).1.Accepted?;
    DocumentRuns.ReadYourWriteIff(doc, path, v, now);
    DocumentRuns.CompactionKeepsReads(written.0, Some(path), w.size);
  }

  /** An INC that was accepted, then a GET of the same path: the reply is the
    * number the INC replied exactly in these cases. Documents that INC creates are
    * counters, which are read whole, so at a path inside them it never is. */
  lemma IncThenGetIff(c: Conn, m: Managers.Manager, id: string, path: string, delta: I64, now: U64, later: U64,
      w: World)
    requires !Locked(c)
    requires HandleCommand(c, m, IncCommand(id, path, delta), now, w).2.Count?
    ensures var (_, after, reply) := HandleCommand(c, m, IncCommand(id, path, delta), now, w);
            var doc := Managers.GetOrCreate(m, id, D.CrdtCounter, now).docs[id];
            var same := DocumentRuns.AddsNothing(doc, delta);
            -TWO_63 <= reply.n < TWO_63 &&
            (HandleCommand(c, after, GetCommand(id, Some(path)), later, w).2
               == ValueReply(Values.Num(Values.Integer(reply.n))) <==>
              match doc.meta.strategy
              case CrdtText => false
              case CrdtCounter => path == "" || (!PathEngine.Names(path) && same)
              case CrdtSet => path == "" || (!PathEngine.Names(path) && same)
              case _ => PathEngine.Names(path) || same)
  {
    hide D.Fetch, D.Increment, DocumentRuns.AutoCompacted, PathEngine.Names, DocumentRuns.AddsNothing;
    var doc := Managers.GetOrCreate(m, id, D.CrdtCounter, now).docs[id];
    var written := D.Increment(doc, path, delta, now);
    assert DocumentRuns.Serve(doc, DocumentRuns.Timed(DocumentRuns.IncCmd(path, delta), now), w.size).1.Count?;
    assert written.1.Done?;
    DocumentRuns.IncrementThenFetchIff(doc, path, delta, now);
    DocumentRuns.CompactionKeepsReads(written.0, Some(path), w.size);
  }

  function IncCommand(id: string, path: string, delta: I64): Command {
    Command(Increment(path, delta), Some(id))
  }

  /** A PUSH that was accepted, then a GET of the same path. */
  lemma PushThenGetIff(c: Conn, m: Managers.Manager, id: string, path: string, v: Values.Value, now: U64, later: U64,
      w: World)
    requires !Locked(c)
    requires HandleCommand(c, m, PushCommand(id, path, v), now, w).2 == Okay("")
    ensures var after := HandleCommand(c, m, PushCommand(id, path, v), now, w).1;
            var doc := Managers.GetOrCreate(m, id, D.Lww, now).docs[id];
            HandleCommand(c, after, GetCommand(id, Some(path)), later, w).2
              == ValueReply(Values.Array(DocumentRuns.ListAt(doc, path) + [v])) <==>
              match doc.meta.strategy
              case CrdtText => false
              case CrdtCounter => path == ""
              case CrdtSet => path == ""
              case _ => PathEngine.Names(path)
  {
    hide D.Fetch, D.Push, DocumentRuns.AutoCompacted, PathEngine.Names, DocumentRuns.ListAt;
    var doc := Managers.GetOrCreate(m, id, D.Lww, now).docs[id];
    var written := D.Push(doc, path, v, now);
    assert DocumentRuns.Settle(written, w.size).1.Accepted?;
    DocumentRuns.PushThenFetchIff(doc, path, v, now);
    DocumentRuns.CompactionKeepsReads(written.0, Some(path), w.size);
  }

  function PushCommand(id: string, path: string, v: Values.Value): Command {
    Command(Push(path, v), Some(id))
  }

  /** A DEL of a path that was accepted, then a GET of it: the reply is Null exactly in these cases. */
  lemma DelThenGetIff(c: Conn, m: Managers.Manager, id: string, path: string, now: U64, later: U64, w: World)
    requires !Locked(c)
    requires HandleCommand(c, m, DelCommand(id, path), now, w).2 == Okay("")
    ensures id in m.docs
    ensures var (after, doc) := (HandleCommand(c, m, DelCommand(id, path), now, w).1, m.docs[id]);
            HandleCommand(c, after, GetCommand(id, Some(path)), later, w).2 == ValueReply(Values.Null) <==>
              match doc.meta.strategy
              case CrdtText => false
              case CrdtCounter => path == "" || (!PathEngine.Names(path) && doc.data.Null?)
              case CrdtSet => path == "" || (!PathEngine.Names(path) && doc.data.Null?)
              case _ => PathEngine.Names(path) || doc.data.Null?
  {
    hide D.Fetch, D.Delete, PathEngine.Names;
    var written := D.Delete(m.docs[id], Some(path), now);
    assert written.1.Done?;
    DocumentRuns.DeleteThenFetchIff(m.docs[id], path, now);
  }

  function DelCommand(id: string, path: string): Command {
    Command(Delete(Some(path)), Some(id))
  }

  /** BACKUP at one instant and RESTORE of a text that reads as the saved entries,
    * in any order, at another: the reply counts them, and every document that
    * was live comes back with its strategy, text and positive time left. */
  lemma BackupThenRestore(c: Conn, m: Managers.Manager, taken: U64, target: Managers.Manager, text: string, now: U64,
      w: World)
    requires !Locked(c) && forall id :: id in m.docs ==> Managers.ValidId(id)
    requires w.readBackup(text).Some? && Managers.DistinctIds(w.readBackup(text).value)
    requires HandleCommand(c, m, Bare(Backup), taken, w).2 == BackupReply(Managers.Elements(w.readBackup(text).value))
    ensures var (_, after, reply) := HandleCommand(c, target, Bare(Restore(text)), now, w);
            reply == Count(|w.readBackup(text).value|) &&
            (forall id :: id in m.docs && !D.IsExpired(m.docs[id].meta, taken) ==>
               id in after.docs && Managers.Survives(m.docs[id], after.docs[id], taken, now)) &&
            (forall id :: id !in m.docs || D.IsExpired(m.docs[id].meta, taken) ==>
               Managers.DocAt(after, id) == Managers.DocAt(target, id))
  {
    hide Managers.Restore, Managers.Saved, Managers.Survives, Managers.IsBackup;
    var entries := w.readBackup(text).value;
    Managers.IsBackupIff(m, entries, taken);
    Managers.BackupThenRestore(m, entries, taken, target, now);
  }

  function Bare(kind: Kind): Command {
    Command(kind, None)
  }

  // ---------- isolation ----------

  /** A command other than RESTORE leaves every document but its own as it was. */
  lemma CommandTouchesOneDocument(c: Conn, m: Managers.Manager, cmd: Command, now: U64, w: World, id: string)
    requires InRange(cmd.kind) && !cmd.kind.Restore? && cmd.id != Some(id)
    ensures Managers.DocAt(HandleCommand(c, m, cmd, now, w).1, id) == Managers.DocAt(m, id)
  {
    hide DocumentRuns.Serve, Managers.TtlReply, D.Fetch;
    match cmd.kind
    case Auth(_) =>
    case _ =>
  }
}
