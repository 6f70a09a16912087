/** What each command does, seen from the connection
  * (crates/ussl-transport/src/handler.rs): the documents and replies spelled out,
  * and runs of commands from any number of connections. */
module CommandEffects {
  import opened Basics
  import opened Commands
  import opened Handlers
  import opened Managers
  import opened PathLaws
  import D = Documents
  import DocumentRuns
  import PathEngine
  import PathParser
  import Strategies
  import Values

  // ---------- commands on a document ----------

  /** The commands that work on the contents of one document. */
  function DocCommand(k: Kind): Option<DocumentRuns.Command>
    requires InRange(k)
  {
    match k
    case Set(path, v) => Some(DocumentRuns.SetCmd(path, v))
    case Push(path, v) => Some(DocumentRuns.PushCmd(path, v))
    case Increment(path, delta) => Some(DocumentRuns.IncCmd(path, delta))
    case Delete(Some(path)) => Some(DocumentRuns.DelCmd(Some(path)))
    case Compact => Some(DocumentRuns.CompactCmd)
    case Expire(ms) => Some(DocumentRuns.ExpireCmd(if ms == 0 then None else Some(ms)))
    case _ => None
  }

  /** The reply shows what became of the command on its document. */
  predicate Shows(answer: Reply, r: DocumentRuns.Reply) {
    match r
    case Accepted => answer == Okay("")
    case Count(n) => answer == Reply.Count(n)
    case Refused(_) => answer.Err? && answer != Err("RATE_LIMITED")
    case NoReply => answer == Hung
  }

  /** On a document that exists such a command does to it what it does alone, and
    * nothing else changes. */
  lemma ExistingIsServed(c: Conn, m: Manager, id: string, k: Kind, now: U64, w: World)
    requires !Locked(c) && InRange(k) && DocCommand(k).Some? && ValidId(id) && id in m.docs
    ensures var (c', after, answer) := HandleCommand(c, m, Command(k, Some(id)), now, w);
            var (d, r) := DocumentRuns.Serve(m.docs[id], DocumentRuns.Timed(DocCommand(k).value, now), w.size);
            c' == c && after == Manager(m.docs[id := d], m.presence) && Shows(answer, r) &&
            (r.Refused? ==> answer == Err(if k.Set? then "SET_ERROR" else if k.Push? then "PUSH_ERROR"
                                          else if k.Increment? then "INC_ERROR" else "DELETE_ERROR"))
  {
    hide D.Set, D.Push, D.Increment, D.Delete, D.Compact, DocumentRuns.AutoCompacted, ValidId;
    match k
    case Set(path, v) =>
    case Push(path, v) =>
    case Increment(path, delta) =>
    case Delete(place) =>
    case Compact =>
    case Expire(ms) =>
  }

  /** SET, PUSH and INC on a missing document do it to a new one: version 1, an
    * empty object, no limit, LWW or for INC a counter. */
  lemma MissingIsCreated(c: Conn, m: Manager, id: string, k: Kind, now: U64, w: World)
    requires !Locked(c) && InRange(k) && (k.Set? || k.Push? || k.Increment?) && ValidId(id) && id !in m.docs
    ensures var (c', after, answer) := HandleCommand(c, m, Command(k, Some(id)), now, w);
            var strategy := if k.Increment? then D.CrdtCounter else D.Lww;
            var blank := D.Doc(D.Meta(id, strategy, now, now, 1, None), D.YDoc("", []), Values.Object(map[]), 0, 0);
            var (d, r) := DocumentRuns.Serve(blank, DocumentRuns.Timed(DocCommand(k).value, now), w.size);
            c' == c && after == Manager(m.docs[id := d], m.presence) && Shows(answer, r)
  {
    hide D.Set, D.Push, D.Increment, DocumentRuns.AutoCompacted, ValidId;
    match k
    case Set(path, v) =>
    case Push(path, v) =>
    case Increment(path, delta) =>
  }

  /** The others are refused there. */
  lemma MissingIsRefused(c: Conn, m: Manager, id: string, k: Kind, now: U64, w: World)
    requires !Locked(c) && InRange(k) && ValidId(id) && id !in m.docs
    requires k.Delete? || k.Compact? || k.Expire? || k.Ttl?
    ensures HandleCommand(c, m, Command(k, Some(id)), now, w) ==
              (c, m, Err(if k.Expire? then "EXPIRE_ERROR"
                         else if k == Delete(None) then "DELETE_ERROR"
                         else "NOT_FOUND"))
  {
    hide ValidId;
  }

  /** A command for a document is refused without an id, and with a bad one. */
  lemma BadIdIsRefused(c: Conn, m: Manager, cmd: Command, now: U64, w: World)
    requires !Locked(c) && InRange(cmd.kind)
    requires cmd.kind.Create? || cmd.kind.Get? || cmd.kind.Set? || cmd.kind.Push? || cmd.kind.Increment? ||
             cmd.kind.Delete? || cmd.kind.Presence? || cmd.kind.Compact? || cmd.kind.Expire? || cmd.kind.Ttl?
    ensures cmd.id == None ==> HandleCommand(c, m, cmd, now, w) == (c, m, Err("MISSING_ARG"))
    ensures cmd.id.Some? && !ValidId(cmd.id.value) ==> HandleCommand(c, m, cmd, now, w) == (c, m, Err("INVALID_ID"))
  {
    hide ValidId, D.Fetch, DocumentRuns.Serve, TtlReply;
  }

  const SMALL: string := "abcdefghijklmnopqrstuvwxyz"
  const CAPITAL: string := "ABCDEFGHIJKLMNOPQRSTUVWXYZ"
  const OTHER: string := "0123456789:_-"

  /** Good ids are of 1 to 512 characters, all of them letters, digits, ':', '_' or '-'. */
  lemma ValidIdIff(id: string)
    ensures ValidId(id) <==>
              1 <= |id| <= 512 &&
              forall i :: 0 <= i < |id| ==> id[i] in SMALL || id[i] in CAPITAL || id[i] in OTHER
  {
    hide IdChar, SMALL, CAPITAL, OTHER;
    forall i | 0 <= i < |id| ensures IdChar(id[i]) <==> id[i] in SMALL || id[i] in CAPITAL || id[i] in OTHER {
      InSmall(id[i]);
      InCapital(id[i]);
      InOther(id[i]);
      IdCharIs(id[i]);
    }
  }

  lemma IdCharIs(c: char)
    ensures IdChar(c) <==> 'a' <= c <= 'z' || 'A' <= c <= 'Z' || '0' <= c <= '9' || c == ':' || c == '_' || c == '-'
  {}

  lemma InSmall(c: char)
    ensures c in SMALL <==> 'a' <= c <= 'z'
  {
    if 'a' <= c <= 'z' {
      assert SMALL[c as int - 'a' as int] == c;
    }
  }

  lemma InCapital(c: char)
    ensures c in CAPITAL <==> 'A' <= c <= 'Z'
  {
    if 'A' <= c <= 'Z' {
      assert CAPITAL[c as int - 'A' as int] == c;
    }
  }

  lemma InOther(c: char)
    ensures c in OTHER <==> '0' <= c <= '9' || c == ':' || c == '_' || c == '-'
  {
    if '0' <= c <= '9' {
      assert OTHER[c as int - '0' as int] == c;
    } else if c == ':' || c == '_' || c == '-' {
      assert OTHER[10] == ':' && OTHER[11] == '_' && OTHER[12] == '-';
    }
  }

  // ---------- creating, removing, expiring ----------

  /** CREATE adds a blank document under a free id and refuses a taken one. */
  lemma CreateIs(c: Conn, m: Manager, id: string, strategy: D.Strategy, ttl: Option<U64>, now: U64, w: World)
    requires !Locked(c) && ValidId(id)
    ensures var k := Create(strategy, if ttl.Some? then Some(ttl.value) else None);
            var blank := D.Doc(D.Meta(id, strategy, now, now, 1, ttl), D.YDoc("", []), Values.Object(map[]), 0, 0);
            HandleCommand(c, m, Command(k, Some(id)), now, w) ==
              if id in m.docs then (c, m, Err("CREATE_ERROR"))
              else (c, Manager(m.docs[id := blank], m.presence), Okay(""))
  {
    hide ValidId;
  }

  /** DEL of an id removes the document and leaves its presence. */
  lemma DeleteIs(c: Conn, m: Manager, id: string, now: U64, w: World)
    requires !Locked(c) && ValidId(id) && id in m.docs
    ensures var (c', after, answer) := HandleCommand(c, m, Command(Delete(None), Some(id)), now, w);
            c' == c && answer == Okay("") && after.presence == m.presence && id !in after.docs &&
            forall other :: other != id ==> DocAt(after, other) == DocAt(m, other)
  {
    hide ValidId;
  }

  /** EXPIRE 0, then TTL: no limit. EXPIRE with any other time, then TTL: what is
    * left of it since creation, or -2 when it is past (clocks and limit in i64 range). */
  lemma ExpireThenTtl(c: Conn, m: Manager, id: string, ms: U64, now: U64, later: U64, w: World)
    requires !Locked(c) && ValidId(id) && id in m.docs
    requires later < TWO_63 && m.docs[id].meta.createdAt + ms < TWO_63
    ensures var (_, after, answer) := HandleCommand(c, m, Command(Expire(ms), Some(id)), now, w);
            var left := m.docs[id].meta.createdAt + ms - later;
            answer == Okay("") &&
            HandleCommand(c, after, Command(Ttl, Some(id)), later, w) ==
              (c, after, Reply.Count(if ms == 0 then -1 else if left < 0 then -2 else left))
  {
    hide ValidId, D.TtlRemaining, D.IsExpired;
    var after := HandleCommand(c, m, Command(Expire(ms), Some(id)), now, w).1;
    if ms == 0 {
      NoLimitLeft(after.docs[id].meta, later);
    } else {
      D.RemainingIsNegativeIffExpired(after.docs[id].meta, later);
    }
  }

  lemma NoLimitLeft(meta: D.Meta, now: U64)
    requires meta.ttl == None
    ensures D.TtlRemaining(meta, now) == None
  {}

  // ---------- reading ----------

  /** GET, by strategy and path: the text; counters and sets whole; otherwise the
    * value at the path, an error where there is none, no reply on an unclosed path
    * that resolves so far. It changes nothing. */
  lemma GetIs(c: Conn, m: Manager, id: string, place: Option<string>, now: U64, w: World)
    requires !Locked(c) && ValidId(id)
    ensures var (c', after, answer) := HandleCommand(c, m, Command(Get(place), Some(id)), now, w);
            c' == c && after == m &&
            if id !in m.docs then answer == Nothing
            else
            var (doc, strategy) := (m.docs[id], m.docs[id].meta.strategy);
            if strategy == D.CrdtText then answer == ValueReply(Values.Str(doc.ydoc.content))
            else if strategy == D.CrdtCounter || strategy == D.CrdtSet then answer == ValueReply(doc.data)
            else if place == None then answer == ValueReply(doc.data)
            else
              var at := Values.Get(doc.data, PathParser.Parse(place.value));
              answer == if at == None then Err("GET_ERROR")
                        else if place.value == "" || PathParser.Closed(place.value) then ValueReply(at.value)
                        else Hung
  {
    hide ValidId;
    if place.Some? && id in m.docs {
      PathEngine.ReadIs(m.docs[id].data, place.value);
      if place.value == "" {
        assert PathParser.Parse("") == [];
      }
    }
  }

  /** PRESENCE with data, then without: the client's entry is the one just set,
    * the others' are as they were; when the connection closes it is gone. */
  lemma PresenceIs(c: Conn, m: Manager, id: string, data: Values.Value, now: U64, w: World, other: string)
    requires !Locked(c) && ValidId(id)
    ensures var (c', after, answer) := HandleCommand(c, m, Command(Kind.Presence(Some(data)), Some(id)), now, w);
            var (_, same, list) := HandleCommand(c, after, Command(Kind.Presence(None), Some(id)), now, w);
            c' == c && after.docs == m.docs && same == after && answer == Okay("") && list.PresenceReply? &&
            EntriesOf(list.entries, c.client) == [Managers.Presence(c.client, data)] &&
            (other != c.client ==> EntriesOf(list.entries, other) == EntriesOf(PresenceAt(m, id), other))
    ensures EntriesOf(PresenceAt(RemovePresence(m, c.client), id), c.client) == []
  {
    hide ValidId;
    PresenceStep(m, Managers.Timed(PresenceCall(c.client, id, data), now), c.client, id);
    PresenceStep(m, Managers.Timed(PresenceCall(c.client, id, data), now), other, id);
    PresenceStep(m, Managers.Timed(LeaveCall(c.client), now), c.client, id);
  }

  /** KEYS: all ids, the ids that begin or end as asked, or the one asked for. */
  lemma KeysAre(c: Conn, m: Manager, glob: Option<string>, now: U64, w: World, part: string, id: string)
    requires !Locked(c)
    ensures HandleCommand(c, m, Command(Keys(glob), None), now, w) == (c, m, KeysReply(Listed(m, glob)))
    ensures id in Listed(m, None) <==> id in m.docs
    ensures id in Listed(m, Some(part + "*")) <==> id in m.docs && exists rest :: id == part + rest
    ensures part == "" || part[|part| - 1] != '*' ==>
              (id in Listed(m, Some("*" + part)) <==> id in m.docs && exists rest :: id == rest + part)
    ensures part == "" || (part[0] != '*' && part[|part| - 1] != '*') ==>
              (id in Listed(m, Some(part)) <==> id in m.docs && id == part)
  {
    BeginsIff(id, part);
    if part == "" || part[|part| - 1] != '*' {
      EndsIff(id, part);
    }
  }

  lemma BeginsIff(id: string, part: string)
    ensures Matches(id, part + "*") <==> exists rest :: id == part + rest
  {
    var pattern := part + "*";
    assert pattern[..|pattern| - 1] == part;
    if part <= id {
      assert id == part + id[|part|..];
    }
    if part == "" {
      assert pattern == "*" && id == part + id;
    }
    if rest :| id == part + rest {
      assert part <= id;
    }
  }

  lemma EndsIff(id: string, part: string)
    requires part == "" || part[|part| - 1] != '*'
    ensures Matches(id, "*" + part) <==> exists rest :: id == rest + part
  {
    var pattern := "*" + part;
    assert pattern[1..] == part;
    if part == "" {
      assert pattern == "*" && id == id + part;
    } else {
      assert pattern[|pattern| - 1] == part[|part| - 1];
      if |part| <= |id| && id[|id| - |part|..] == part {
        assert id == id[..|id| - |part|] + part;
      }
    }
    if rest :| id == rest + part {
      assert id[|id| - |part|..] == part;
    }
  }

  /** INFO counts the documents. */
  lemma InfoIs(c: Conn, m: Manager, now: U64, w: World)
    requires !Locked(c)
    ensures HandleCommand(c, m, Command(Info, None), now, w) == (c, m, InfoReply(|m.docs|, c.client, c.subscriptions))
  {}

  // ---------- who may ----------

  /** AUTH, PING and QUIT are always answered; a locked connection gets nothing
    * else, and only the right password unlocks it. */
  lemma Gate(c: Conn, m: Manager, cmd: Command, now: U64, w: World)
    requires InRange(cmd.kind)
    ensures cmd.kind.Ping? ==> HandleCommand(c, m, cmd, now, w) == (c, m, Pong)
    ensures cmd.kind.Quit? ==> HandleCommand(c, m, cmd, now, w) == (c, m, Okay("Goodbye"))
    ensures cmd.kind.Auth? ==>
              HandleCommand(c, m, cmd, now, w) ==
                match c.password
                case None => (c, m, Okay("No authentication required"))
                case Some(p) =>
                  if p == cmd.kind.password then (c.(authenticated := true), m, Okay("")) else (c, m, Err("WRONGPASS"))
    ensures !cmd.kind.Ping? && !cmd.kind.Quit? && !cmd.kind.Auth? && Locked(c) ==>
              HandleCommand(c, m, cmd, now, w) == (c, m, Err("NOAUTH"))
  {
    hide Execute;
  }

  /** SUB and UNSUB keep a list without repetitions. */
  lemma SubscriptionsAre(c: Conn, m: Manager, pattern: string, place: Option<string>, other: string, now: U64, w: World)
    requires !Locked(c)
    ensures var on := HandleCommand(c, m, Command(Subscribe(pattern, place), Some(pattern)), now, w);
            var off := HandleCommand(c, m, Command(Unsubscribe(pattern), Some(pattern)), now, w);
            on.1 == m && off.1 == m &&
            (other in on.0.subscriptions <==> other == pattern || other in c.subscriptions) &&
            (other in off.0.subscriptions <==> other != pattern && other in c.subscriptions) &&
            (pattern in c.subscriptions ==> on.0 == c) &&
            on.0 == c.(subscriptions := on.0.subscriptions) && off.0 == c.(subscriptions := off.0.subscriptions)
  {
    WithoutIs(c.subscriptions, pattern, other);
  }

  lemma {:induction false} WithoutIs(ps: seq<string>, p: string, other: string)
    ensures other in Without(ps, p) <==> other != p && other in ps
  {
    if ps != [] {
      WithoutIs(ps[1..], p, other);
      assert ps == [ps[0]] + ps[1..];
    }
  }

  // ---------- restoring ----------

  /** The names of a strategy, in small letters. */
  predicate Names(name: string, strategy: D.Strategy) {
    match strategy
    case Lww => name == "lww"
    case CrdtCounter => name == "crdt-counter" || name == "counter"
    case CrdtSet => name == "crdt-set" || name == "set"
    case CrdtMap => name == "crdt-map" || name == "map"
    case CrdtText => name == "crdt-text" || name == "text"
  }

  lemma StrategyIs(text: string, strategy: D.Strategy)
    ensures Strategies.ParseStrategy(text) == Some(strategy) <==> Names(Strategies.Lower(text), strategy)
    ensures Strategies.ParseStrategy(text) == None <==> forall st :: !Names(Strategies.Lower(text), st)
  {
    hide Strategies.Lower;
    match Strategies.ParseStrategy(text)
    case Some(st) => assert Names(Strategies.Lower(text), st);
    case None =>
  }

  /** A backup entry is bad exactly when its id is bad, its strategy has no such
    * name in any case, or its state does not decode, and the first of these is
    * the error; a good one becomes a document with the state's text, an empty
    * object, and the time left, if positive, as its limit. */
  lemma EntryIs(e: Entry, now: U64)
    ensures !ValidId(e.id) ==> RestoreOne(e, now) == D.Failed(D.InvalidId)
    ensures ValidId(e.id) && (forall st :: !Names(Strategies.Lower(e.strategy), st)) ==>
              RestoreOne(e, now) == D.Failed(D.InvalidStrategy)
    ensures forall st :: ValidId(e.id) && Names(Strategies.Lower(e.strategy), st) ==>
              RestoreOne(e, now) ==
                var left := e.ttlRemaining;
                var limit := if left.Some? && left.value > 0 then Some(left.value) else None;
                match e.state
                case Garbage => D.Failed(D.RestoreError)
                case Empty =>
                  D.Done(D.Doc(D.Meta(e.id, st, now, now, 1, limit), D.YDoc("", []), Values.Object(map[]), 0, 0))
                case State(text) =>
                  D.Done(D.Doc(D.Meta(e.id, st, now, now, 2, limit), text, Values.Object(map[]), 0, 0))
  {
    hide ValidId, Names, Strategies.ParseStrategy, Strategies.Lower;
    StrategyIs(e.strategy, D.Lww);
    forall st: D.Strategy | Names(Strategies.Lower(e.strategy), st)
      ensures Strategies.ParseStrategy(e.strategy) == Some(st) {
      StrategyIs(e.strategy, st);
    }
  }

  // ---------- runs from any number of connections ----------

  /** A command of some connection, as that connection is by then. */
  datatype Step = Step(conn: Conn, cmd: Command, now: U64)

  function RunAll(m: Manager, steps: seq<Step>, w: World): (r: (Manager, seq<Reply>))
    requires forall i :: 0 <= i < |steps| ==> InRange(steps[i].cmd.kind)
    ensures |r.1| == |steps|
  {
    if steps == [] then (m, []) else
    var (before, answers) := RunAll(m, Front(steps), w);
    var (_, after, answer) := HandleCommand(Last(steps).conn, before, Last(steps).cmd, Last(steps).now, w);
    (after, answers + [answer])
  }

  /** An admitted command on the contents of the document `id`. */
  predicate Concerns(s: Step, id: string)
    requires InRange(s.cmd.kind)
  {
    !Locked(s.conn) && s.cmd.id == Some(id) && DocCommand(s.cmd.kind).Some?
  }

  /** It neither removes the document nor puts another in its place. */
  predicate Spares(s: Step, id: string) {
    InRange(s.cmd.kind) && !s.cmd.kind.Restore? && s.cmd != Command(Delete(None), Some(id))
  }

  predicate AllSpare(steps: seq<Step>, id: string) {
    forall i :: 0 <= i < |steps| ==> Spares(steps[i], id)
  }

  /** The commands on one document, in order. */
  function Project(steps: seq<Step>, id: string): seq<DocumentRuns.Timed>
    requires AllSpare(steps, id)
  {
    if steps == [] then [] else
    var s := Last(steps);
    Project(Front(steps), id) +
      if Concerns(s, id) then [DocumentRuns.Timed(DocCommand(s.cmd.kind).value, s.now)] else []
  }

  /** And the replies to them. */
  function Replies(steps: seq<Step>, answers: seq<Reply>, id: string): seq<Reply>
    requires AllSpare(steps, id) && |answers| == |steps|
  {
    if steps == [] then [] else
    Replies(Front(steps), Front(answers), id) + if Concerns(Last(steps), id) then [Last(answers)] else []
  }

  predicate AllShow(answers: seq<Reply>, rs: seq<DocumentRuns.Reply>) {
    |answers| == |rs| && forall i :: 0 <= i < |rs| ==> Shows(answers[i], rs[i])
  }

  /** Any other command leaves the document as it is. */
  lemma OthersLeaveIt(m: Manager, s: Step, id: string, w: World)
    requires Spares(s, id) && !Concerns(s, id) && id in m.docs
    ensures DocAt(HandleCommand(s.conn, m, s.cmd, s.now, w).1, id) == Some(m.docs[id])
  {
    hide DocumentRuns.Serve, TtlReply, D.Fetch, ValidId, Managers.Saved, Listed;
    if s.cmd.id != Some(id) {
      CommandTouchesOneDocument(s.conn, m, s.cmd, s.now, w, id);
    } else {
      match s.cmd.kind
      case Create(_, _) =>
      case _ =>
    }
  }

  /** However commands from any connections are interleaved, an existing document
    * ends as after its own commands alone, and they get the replies of that run. */
  lemma {:induction false} EachDocumentRunsAlone(m: Manager, steps: seq<Step>, id: string, w: World)
    requires ValidId(id) && id in m.docs && AllSpare(steps, id)
    ensures var (after, answers) := RunAll(m, steps, w);
            var (d, rs) := DocumentRuns.Run(m.docs[id], Project(steps, id), w.size);
            DocAt(after, id) == Some(d) && AllShow(Replies(steps, answers, id), rs)
    decreases |steps|
  {
    hide HandleCommand, DocumentRuns.Serve, ValidId, DocCommand, Shows;
    if steps != [] {
      var s := Last(steps);
      EachDocumentRunsAlone(m, Front(steps), id, w);
      var (before, answers) := RunAll(m, Front(steps), w);
      var cs := Project(Front(steps), id);
      assert Front(RunAll(m, steps, w).1) == answers;
      if Concerns(s, id) {
        OneMoreServed(before, s, id, w);
        DocumentRuns.RunAppend(m.docs[id], cs, DocumentRuns.Timed(DocCommand(s.cmd.kind).value, s.now), w.size);
      } else {
        OthersLeaveIt(before, s, id, w);
        assert cs + [] == cs;
        assert Replies(Front(steps), answers, id) + [] == Replies(Front(steps), answers, id);
      }
    }
  }

  lemma OneMoreServed(m: Manager, s: Step, id: string, w: World)
    requires ValidId(id) && id in m.docs && Spares(s, id) && Concerns(s, id)
    ensures var (_, after, answer) := HandleCommand(s.conn, m, s.cmd, s.now, w);
            var c := DocumentRuns.Timed(DocCommand(s.cmd.kind).value, s.now);
            var (d, r) := DocumentRuns.Serve(m.docs[id], c, w.size);
            DocAt(after, id) == Some(d) && Shows(answer, r)
  {
    hide HandleCommand, DocumentRuns.Serve, ValidId, DocCommand, Shows;
    ExistingIsServed(s.conn, m, id, s.cmd.kind, s.now, w);
    assert s.cmd == Command(s.cmd.kind, Some(id));
  }

  /** So however many connections count at a place, the value there is the initial
    * integer plus the sum of all amounts, and each INC is answered the sum so far. */
  lemma CountersAddUp(m: Manager, steps: seq<Step>, id: string, p: Values.Segments, w: World)
    requires ValidId(id) && id in m.docs && AllSpare(steps, id)
    requires DocumentRuns.CounterRun(Project(steps, id), p)
    ensures var (after, answers) := RunAll(m, steps, w);
            var (cs, first) := (Project(steps, id), Values.IntegerOf(Values.Get(m.docs[id].data, p)));
            var mine := Replies(steps, answers, id);
            id in after.docs && |mine| == |cs| &&
            Values.IntegerOf(Values.Get(after.docs[id].data, p)) == Wrap(first + DocumentRuns.Total(cs, p)) &&
            forall i :: 0 <= i < |cs| && cs[i].cmd.IncCmd? && DocumentRuns.At(cs[i].cmd.path, p) ==>
              mine[i] == Reply.Count(Wrap(first + DocumentRuns.TotalThrough(cs, i, p)))
  {
    hide RunAll, Project, Replies, Shows, AllShow, DocAt, Concerns, DocCommand, ValidId;
    hide DocumentRuns.Run, DocumentRuns.At, DocumentRuns.CounterRun, DocumentRuns.Total, DocumentRuns.TotalThrough;
    EachDocumentRunsAlone(m, steps, id, w);
    var cs := Project(steps, id);
    DocumentRuns.CounterIsTheSum(m.docs[id], cs, w.size, p);
    var (answers, rs) := (Replies(steps, RunAll(m, steps, w).1, id), DocumentRuns.Run(m.docs[id], cs, w.size).1);
    IsThere(RunAll(m, steps, w).0, id);
    ShownEach(answers, rs);
    forall i | 0 <= i < |cs| && cs[i].cmd.IncCmd? && DocumentRuns.At(cs[i].cmd.path, p)
      ensures answers[i] == Reply.Count(rs[i].n) {
      CountIsShown(answers[i], rs[i]);
    }
  }

  lemma IsThere(m: Manager, id: string)
    ensures DocAt(m, id).Some? <==> id in m.docs
    ensures id in m.docs ==> DocAt(m, id) == Some(m.docs[id])
  {}

  lemma ShownEach(answers: seq<Reply>, rs: seq<DocumentRuns.Reply>)
    requires AllShow(answers, rs)
    ensures |answers| == |rs| && forall i :: 0 <= i < |rs| ==> Shows(answers[i], rs[i])
  {
    hide Shows;
  }

  lemma CountIsShown(answer: Reply, r: DocumentRuns.Reply)
    requires Shows(answer, r) && r.Count?
    ensures answer == Reply.Count(r.n)
  {}

  /** And the values that were pushed there from any connection and accepted extend
    * the list in the order of the commands. */
  lemma PushesAddUp(m: Manager, steps: seq<Step>, id: string, p: Values.Segments, w: World)
    requires ValidId(id) && id in m.docs && AllSpare(steps, id)
    requires DocumentRuns.ListRun(Project(steps, id), p)
    ensures var (after, answers) := RunAll(m, steps, w);
            |Replies(steps, answers, id)| == |Project(steps, id)| && id in after.docs &&
            var xs := PushedAt(Project(steps, id), Replies(steps, answers, id), p);
            if xs == [] then DocumentRuns.Undisturbed(m.docs[id].data, after.docs[id].data, p)
            else
              (Values.Get(m.docs[id].data, p).Some? ==> Values.Get(m.docs[id].data, p).value.Array?) &&
              Values.Get(after.docs[id].data, p) == Some(Values.Array(DocumentRuns.ItemsAt(m.docs[id], p) + xs))
  {
    hide RunAll, Project, Replies, DocumentRuns.Run, ValidId, DocumentRuns.ListRun;
    EachDocumentRunsAlone(m, steps, id, w);
    DocumentRuns.PushesExtendTheList(m.docs[id], Project(steps, id), w.size, p);
    var rs := DocumentRuns.Run(m.docs[id], Project(steps, id), w.size).1;
    SamePushed(Project(steps, id), Replies(steps, RunAll(m, steps, w).1, id), rs, p);
  }

  /** The values of the pushes at `p` answered OK, in order. */
  function PushedAt(cs: seq<DocumentRuns.Timed>, answers: seq<Reply>, p: Values.Segments): seq<Values.Value>
    requires |cs| == |answers|
  {
    if cs == [] then [] else
    PushedAt(Front(cs), Front(answers), p) +
      if Last(cs).cmd.PushCmd? && DocumentRuns.At(Last(cs).cmd.path, p) && Last(answers) == Okay("")
      then [Last(cs).cmd.value] else []
  }

  lemma {:induction false} SamePushed(cs: seq<DocumentRuns.Timed>, answers: seq<Reply>, rs: seq<DocumentRuns.Reply>,
      p: Values.Segments)
    requires AllShow(answers, rs) && |cs| == |rs|
    ensures PushedAt(cs, answers, p) == DocumentRuns.Pushed(cs, rs, p)
    decreases |cs|
  {
    hide DocumentRuns.At;
    if cs != [] {
      SamePushed(Front(cs), Front(answers), Front(rs), p);
      assert Shows(Last(answers), Last(rs));
    }
  }
}
