/** The connection handler as an object (crates/ussl-transport/src/handler.rs):
  * its parser, its limiter and the shared documents are changed in place. */
module ConnectionHandlers {
  import opened Basics
  import opened Strings
  import opened Commands
  import opened Handlers
  import opened DocumentManagers
  import D = Documents
  import DocumentRuns
  import Framing
  import Managers
  import RateLimit
  import Values

  /** One command on a document; automatic compaction follows a successful SET, PUSH or INC. */
  method ServeDocument(doc: D.Document, c: DocumentRuns.Command, now: U64, size: D.Sizes)
      returns (r: DocumentRuns.Reply)
    modifies doc
    ensures (doc.Abs(), r) == DocumentRuns.Serve(old(doc.Abs()), DocumentRuns.Timed(c, now), size)
  {
    match c {
      case SetCmd(path, x) =>
        var done := doc.SetValue(path, x, now);
        r := Settled(done);
        if done.Done? {
          doc.MaybeAutoCompact(size);
        }
      case PushCmd(path, x) =>
        var done := doc.PushValue(path, x, now);
        r := Settled(done);
        if done.Done? {
          doc.MaybeAutoCompact(size);
        }
      case IncCmd(path, delta) =>
        var done := doc.IncrementBy(path, delta, now);
        match done {
          case Done(n) =>
            doc.MaybeAutoCompact(size);
            r := DocumentRuns.Count(n);
          case Failed(e) =>
            r := DocumentRuns.Refused(e);
          case Hangs =>
            r := DocumentRuns.NoReply;
        }
      case DelCmd(place) =>
        var done := doc.DeleteValue(place, now);
        r := Settled(done);
      case CompactCmd =>
        var saved := doc.CompactHistory(size);
        r := DocumentRuns.Count(saved);
      case ExpireCmd(ttl) =>
        doc.SetTtl(ttl);
        r := DocumentRuns.Accepted;
    }
  }

  function Settled(done: D.Outcome<()>): DocumentRuns.Reply {
    match done
    case Done(_) => DocumentRuns.Accepted
    case Failed(e) => DocumentRuns.Refused(e)
    case Hangs => DocumentRuns.NoReply
  }

  predicate IsQuery(k: Kind) {
    k.Get? || k.Info? || k.Keys? || k.Ttl? || k.Backup?
  }

  class ConnectionHandler {
    const client: string
    const password: Option<string>
    const world: World
    const manager: DocumentManager
    const parser: Framing.Parser
    const limiter: RateLimit.RateLimiter?
    var authenticated: bool
    var subscriptions: seq<string>

    ghost predicate Valid()
      reads this, manager
    {
      manager.Valid()
    }

    ghost function Abs(): Session
      reads this, manager, manager.documents.Values, parser, limiter
    {
      Session(Fields(), if limiter == null then None else Some(limiter.Abs()), parser.buffer, manager.Abs())
    }

    function Fields(): Conn
      reads this
    {
      Conn(client, password, authenticated, subscriptions)
    }

    constructor (client: string, password: Option<string>, world: World, manager: DocumentManager,
        limiter: RateLimit.RateLimiter?)
      requires manager.Valid()
      ensures Valid() && this.manager == manager && this.limiter == limiter && this.world == world && fresh(parser)
      ensures Abs() == Session(Conn(client, password, password.None?, []),
              if limiter == null then None else Some(limiter.Abs()), "", manager.Abs())
    {
      this.client, this.password, this.world := client, password, world;
      this.manager, this.limiter := manager, limiter;
      parser := new Framing.Parser();
      authenticated, subscriptions := password.None?, [];
    }

    method OnExisting(id: string, c: DocumentRuns.Command, now: U64, code: string) returns (r: Reply)
      requires Valid() && id in manager.documents
      modifies manager.documents.Values
      ensures Valid() && (manager.Abs(), r) == OnDocument(old(manager.Abs()), id, c, now, world.size, code)
    {
      var served := ServeDocument(manager.documents[id], c, now, world.size);
      assert manager.Docs() == old(manager.Docs())[id := manager.documents[id].Abs()];
      r := ReplyOf(served, code);
    }

    method HandleWriteCommand(id: string, c: DocumentRuns.Command, now: U64) returns (r: Reply)
      requires Valid()
      modifies manager, manager.documents.Values
      ensures forall d :: d in manager.documents.Values ==> d in old(manager.documents.Values) || fresh(d)
      ensures Valid() && (manager.Abs(), r) == HandleWrite(old(manager.Abs()), id, c, now, world.size)
    {
      hide DocumentRuns.Serve;
      if !Managers.ValidId(id) {
        return Err("INVALID_ID");
      }
      var strategy := if c.IncCmd? then D.CrdtCounter else D.Lww;
      var code := if c.IncCmd? then "INC_ERROR" else if c.PushCmd? then "PUSH_ERROR" else "SET_ERROR";
      var _ := manager.GetOrCreateDocument(id, strategy, now);
      r := OnExisting(id, c, now, code);
    }

    method HandleDeleteCommand(id: string, place: Option<string>, now: U64) returns (r: Reply)
      requires Valid()
      modifies manager, manager.documents.Values
      ensures forall d :: d in manager.documents.Values ==> d in old(manager.documents.Values) || fresh(d)
      ensures Valid() && (manager.Abs(), r) == HandleDelete(old(manager.Abs()), id, place, now, world.size)
    {
      hide DocumentRuns.Serve;
      if !Managers.ValidId(id) {
        return Err("INVALID_ID");
      }
      if place.Some? {
        if id !in manager.documents {
          return Err("NOT_FOUND");
        }
        r := OnExisting(id, DocumentRuns.DelCmd(place), now, "DELETE_ERROR");
      } else {
        var removed := manager.DeleteDocument(id);
        r := if removed.Done? then Okay("") else Err("DELETE_ERROR");
      }
    }

    method HandleCompactCommand(id: string, now: U64) returns (r: Reply)
      requires Valid()
      modifies manager.documents.Values
      ensures Valid() && (manager.Abs(), r) == HandleCompact(old(manager.Abs()), id, now, world.size)
    {
      hide DocumentRuns.Serve;
      if !Managers.ValidId(id) {
        return Err("INVALID_ID");
      }
      if id !in manager.documents {
        return Err("NOT_FOUND");
      }
      r := OnExisting(id, DocumentRuns.CompactCmd, now, "COMPACT_ERROR");
    }

    method HandleCreateCommand(id: string, strategy: D.Strategy, ttl: Option<nat>, now: U64) returns (r: Reply)
      requires Valid() && (ttl.Some? ==> ttl.value < TWO_64)
      modifies manager
      ensures forall d :: d in manager.documents.Values ==> d in old(manager.documents.Values) || fresh(d)
      ensures Valid() && (manager.Abs(), r) == HandleCreate(old(manager.Abs()), id, strategy, ttl, now)
    {
      if !Managers.ValidId(id) {
        return Err("INVALID_ID");
      }
      var made := manager.CreateDocument(id, strategy, if ttl.Some? then Some(ttl.value) else None, now);
      r := if made.Done? then Okay("") else Err("CREATE_ERROR");
    }

    method HandleExpireCommand(id: string, ms: nat) returns (r: Reply)
      requires Valid() && ms < TWO_64
      modifies manager.documents.Values
      ensures Valid() && (manager.Abs(), r) == HandleExpire(old(manager.Abs()), id, ms)
    {
      if !Managers.ValidId(id) {
        return Err("INVALID_ID");
      }
      var done := manager.ExpireDocument(id, if ms == 0 then None else Some(ms));
      r := if done.Done? then Okay("") else Err("EXPIRE_ERROR");
    }

    method HandleTtlCommand(id: string, now: U64) returns (r: Reply)
      requires Valid()
      ensures r == HandleTtl(manager.Abs(), id, now)
    {
      if !Managers.ValidId(id) {
        return Err("INVALID_ID");
      }
      if id !in manager.documents {
        return Err("NOT_FOUND");
      }
      var remaining := D.TtlRemaining(manager.documents[id].meta, now);
      r := Count(if remaining.None? then -1 else if remaining.value < 0 then -2 else remaining.value);
    }

    method HandleGetCommand(id: string, place: Option<string>) returns (r: Reply)
      requires Valid()
      ensures r == HandleGet(manager.Abs(), id, place)
    {
      if !Managers.ValidId(id) {
        return Err("INVALID_ID");
      }
      if id !in manager.documents {
        return Nothing;
      }
      var got := D.Fetch(manager.documents[id].Abs(), place);
      r := match got case Done(v) => ValueReply(v) case Failed(_) => Err("GET_ERROR") case Hangs => Hung;
    }

    method HandlePresenceCommand(id: string, data: Option<Values.Value>) returns (r: Reply)
      requires Valid()
      modifies manager`presence
      ensures Valid() && (manager.Abs(), r) == HandlePresence(old(manager.Abs()), client, id, data)
    {
      if !Managers.ValidId(id) {
        return Err("INVALID_ID");
      }
      if data.Some? {
        manager.SetClientPresence(client, id, data.value);
        return Okay("");
      }
      r := PresenceReply(if id in manager.presence then manager.presence[id] else []);
    }

    method HandleRestoreCommand(text: string, now: U64) returns (r: Reply)
      requires Valid()
      modifies manager
      ensures forall d :: d in manager.documents.Values ==> d in old(manager.documents.Values) || fresh(d)
      ensures Valid() && (manager.Abs(), r) == HandleRestore(old(manager.Abs()), text, world, now)
    {
      hide Managers.Restore;
      var backup := world.readBackup(text);
      if backup.None? {
        return Err("INVALID_JSON");
      }
      var done := manager.RestoreBackup(backup.value, now);
      r := if done.Done? then Count(done.value) else Err("RESTORE_ERROR");
    }

    method HandleInfoCommand() returns (r: Reply)
      requires Valid()
      ensures r == InfoReply(|manager.Abs().docs|, client, subscriptions)
    {
      assert manager.Docs().Keys == manager.documents.Keys;
      r := InfoReply(|manager.documents.Keys|, client, subscriptions);
    }

    method HandleKeysCommand(glob: Option<string>) returns (r: Reply)
      requires Valid()
      ensures r == KeysReply(Managers.Listed(manager.Abs(), glob))
    {
      var ids := manager.ListMatching(glob);
      r := KeysReply(SetOf(ids));
    }

    method HandleBackupCommand(now: U64) returns (r: Reply)
      requires Valid()
      ensures r == BackupReply(Managers.Saved(manager.Abs(), now))
    {
      var entries := manager.TakeBackup(now);
      Managers.IsBackupIff(manager.Abs(), entries, now);
      r := BackupReply(Managers.Elements(entries));
    }

    method HandleAuthCommand(attempt: string) returns (r: Reply)
      modifies this
      ensures (Fields(), r) == HandleAuth(old(Fields()), attempt)
    {
      match password {
        case Some(expected) =>
          if expected == attempt {
            authenticated := true;
            r := Okay("");
          } else {
            r := Err("WRONGPASS");
          }
        case None =>
          r := Okay("No authentication required");
      }
    }

    /** Commands that change nothing. */
    method AnswerQuery(cmd: Command, id: string, now: U64) returns (r: Reply)
      requires Valid() && IsQuery(cmd.kind) && (NeedsId(cmd.kind) ==> cmd.id == Some(id))
      ensures (Fields(), manager.Abs(), r) == Execute(Fields(), manager.Abs(), cmd, now, world)
    {
      hide HandleGet, HandleTtl, Managers.Listed, Managers.Saved;
      match cmd.kind {
        case Get(place) => r := HandleGetCommand(id, place);
        case Info => r := HandleInfoCommand();
        case Keys(glob) => r := HandleKeysCommand(glob);
        case Ttl => r := HandleTtlCommand(id, now);
        case Backup => r := HandleBackupCommand(now);
      }
    }

    method ExecuteCommand(cmd: Command, now: U64) returns (r: Reply)
      requires Valid() && InRange(cmd.kind) && !AlwaysAllowed(cmd.kind)
      modifies this, manager, manager.documents.Values
      ensures forall d :: d in manager.documents.Values ==> d in old(manager.documents.Values) || fresh(d)
      ensures Valid() && (Fields(), manager.Abs(), r) == Execute(old(Fields()), old(manager.Abs()), cmd, now, world)
    {
      hide HandleCreate, HandleGet, HandleWrite, HandleDelete, HandlePresence, HandleCompact, HandleExpire, HandleTtl;
      hide HandleRestore, Managers.Listed, Managers.Saved;
      if NeedsId(cmd.kind) && cmd.id.None? {
        return Err("MISSING_ARG");
      }
      var id := if cmd.id.Some? then cmd.id.value else "";
      if IsQuery(cmd.kind) {
        r := AnswerQuery(cmd, id, now);
        return;
      }
      match cmd.kind {
        case Create(strategy, ttl) => r := HandleCreateCommand(id, strategy, ttl, now);
        case Set(path, v) => r := HandleWriteCommand(id, DocumentRuns.SetCmd(path, v), now);
        case Push(path, v) => r := HandleWriteCommand(id, DocumentRuns.PushCmd(path, v), now);
        case Increment(path, delta) => r := HandleWriteCommand(id, DocumentRuns.IncCmd(path, delta), now);
        case Delete(place) => r := HandleDeleteCommand(id, place, now);
        case Subscribe(pattern, _) =>
          if pattern !in subscriptions {
            subscriptions := subscriptions + [pattern];
          }
          r := Okay("Subscribed to " + pattern);
        case Unsubscribe(pattern) =>
          subscriptions := Without(subscriptions, pattern);
          r := Okay("Unsubscribed from " + pattern);
        case Presence(data) => r := HandlePresenceCommand(id, data);
        case Compact => r := HandleCompactCommand(id, now);
        case Expire(ms) => r := HandleExpireCommand(id, ms);
        case Restore(text) => r := HandleRestoreCommand(text, now);
      }
    }

    method HandleOne(cmd: Command, now: U64) returns (r: Reply)
      requires Valid() && InRange(cmd.kind)
      modifies this, manager, manager.documents.Values
      ensures forall d :: d in manager.documents.Values ==> d in old(manager.documents.Values) || fresh(d)
      ensures Valid() && (Fields(), manager.Abs(), r) ==
              HandleCommand(old(Fields()), old(manager.Abs()), cmd, now, world)
    {
      hide Execute;
      match cmd.kind {
        case Auth(attempt) => r := HandleAuthCommand(attempt);
        case Ping => r := Pong;
        case Quit => r := Okay("Goodbye");
        case _ =>
          if password.Some? && !authenticated {
            return Err("NOAUTH");
          }
          r := ExecuteCommand(cmd, now);
      }
    }

    /** One line of the loop; the parser has already given it up. */
    method TakeParsed(p: Parsed, k: nat, clock: Clock, spurious: nat) returns (reply: Reply, stop: bool)
      requires Valid() && (p.Parsed? ==> InRange(p.command.kind))
      modifies this, manager, manager.documents.Values, limiter
      ensures forall d :: d in manager.documents.Values ==> d in old(manager.documents.Values) || fresh(d)
      ensures Valid()
      ensures var t := TakeLine(old(Abs()), p, k, clock, world); Abs() == t.s && reply == t.reply && stop == t.stop
    {
      hide HandleCommand;
      match p {
        case Bad(_) =>
          return Err("PARSE_ERROR"), true;
        case Parsed(cmd) =>
          if !cmd.kind.Ping? && !cmd.kind.Quit? && limiter != null {
            var ok := limiter.TryAcquire(clock(k).0, spurious);
            if !ok {
              return Err("RATE_LIMITED"), false;
            }
          }
          reply := HandleOne(cmd, clock(k).1);
          stop := reply.Hung?;
      }
    }

    /** When the connection closes, its client is present nowhere. */
    method Cleanup()
      requires Valid()
      modifies manager`presence
      ensures Valid() && manager.Abs() == Managers.RemovePresence(old(manager.Abs()), client)
    {
      manager.RemoveClientPresence(client);
    }

    /** One turn of the loop: None when no complete line is buffered. */
    method TakeFromBuffer(k: nat, clock: Clock, spurious: nat) returns (reply: Option<Reply>, stop: bool)
      requires Valid()
      modifies this, parser, limiter, manager, manager.documents.Values
      ensures Valid()
      ensures forall d :: d in manager.documents.Values ==> d in old(manager.documents.Values) || fresh(d)
      ensures var s := old(Abs());
              if Cut(s.buffer, '\n').None? then Abs() == s && reply == None && stop
              else
                var t := TakeNext(s, k, clock, world);
                Abs() == t.s && reply == Some(t.reply) && stop == t.stop
    {
      hide TakeLine, TakeNext;
      ghost var s := Abs();
      var line := parser.Parse(world.json);
      if line.None? {
        return None, true;
      }
      TakeNextIs(s, k, clock, world);
      var r, last := TakeParsed(line.value, k, clock, spurious);
      reply, stop := Some(r), last;
    }

    /** `process`; `first` is the number of lines taken before. */
    method ProcessData(data: string, first: nat, clock: Clock, spurious: nat) returns (responses: seq<Reply>)
      requires Valid()
      modifies this, parser, limiter, manager, manager.documents.Values
      ensures Valid()
      ensures var d := Process(old(Abs()), data, first, clock, world); Abs() == d.s && responses == d.replies
    {
      hide TakeNext, Drain, Cut, OnCourse;
      responses := [];
      var fed := parser.Feed(data);
      if !fed {
        return [Err("PARSE_ERROR")];
      }
      ghost var whole := Drain(Abs(), first, clock, world);
      var k, stop := first, false;
      CourseIsSet(Abs(), k, clock, world);
      while !stop
        invariant Valid()
        invariant forall d :: d in manager.documents.Values ==> d in old(manager.documents.Values) || fresh(d)
        invariant OnCourse(whole, Abs(), responses, stop, k, clock, world)
        decreases !stop, |parser.buffer|
      {
        StaysOnCourse(whole, Abs(), responses, k, clock, world);
        var reply, last := TakeFromBuffer(k, clock, spurious);
        if reply.Some? {
          responses := responses + [reply.value];
        }
        stop := last;
        k := k + 1;
      }
      CourseEnds(whole, Abs(), responses, k, clock, world);
    }
  }

  /** The session and the replies so far lead to the same end as the whole drain. */
  ghost predicate OnCourse(whole: Drained, s: Session, replies: seq<Reply>, stop: bool, k: nat, clock: Clock,
      w: World) {
    if stop then whole.s == s && whole.replies == replies
    else whole.s == Drain(s, k, clock, w).s && whole.replies == replies + Drain(s, k, clock, w).replies
  }

  lemma CourseIsSet(s: Session, k: nat, clock: Clock, w: World)
    ensures OnCourse(Drain(s, k, clock, w), s, [], false, k, clock, w)
  {
    hide Drain;
    assert [] + Drain(s, k, clock, w).replies == Drain(s, k, clock, w).replies;
  }

  lemma StaysOnCourse(whole: Drained, s: Session, replies: seq<Reply>, k: nat, clock: Clock, w: World)
    requires OnCourse(whole, s, replies, false, k, clock, w)
    ensures Cut(s.buffer, '\n').None? ==> OnCourse(whole, s, replies, true, k + 1, clock, w)
    ensures Cut(s.buffer, '\n').Some? ==>
      var t := TakeNext(s, k, clock, w);
      |t.s.buffer| < |s.buffer| && OnCourse(whole, t.s, replies + [t.reply], t.stop, k + 1, clock, w)
  {
    hide Drain, TakeNext, NextParsed;
    DrainUnfolds(s, k, clock, w);
    if Cut(s.buffer, '\n').None? {
      assert replies + [] == replies;
    } else {
      var t := TakeNext(s, k, clock, w);
      var rest := Drain(t.s, k + 1, clock, w).replies;
      assert replies + ([t.reply] + rest) == replies + [t.reply] + rest;
    }
  }

  lemma CourseEnds(whole: Drained, s: Session, replies: seq<Reply>, k: nat, clock: Clock, w: World)
    requires OnCourse(whole, s, replies, true, k, clock, w)
    ensures whole.s == s && whole.replies == replies
  {}

  lemma TakeNextIs(s: Session, k: nat, clock: Clock, w: World)
    requires Cut(s.buffer, '\n').Some?
    ensures var (line, rest) := Cut(s.buffer, '\n').value;
            var p := ParseLine(Framing.Chomp(line), w.json);
            (p.Parsed? ==> InRange(p.command.kind)) &&
                TakeNext(s, k, clock, w) == TakeLine(s.(buffer := rest), p, k, clock, w)
  {
    hide TakeLine, ParseLine;
    ParsedIsInRange(Framing.Chomp(Cut(s.buffer, '\n').value.0), w.json);
  }
}
