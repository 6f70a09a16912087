/** Command lines (crates/ussl-protocol/src/parser.rs:59-310 and command.rs).
  * Case and white space are ASCII; JSON parsing is a parameter. */
module Commands {
  import opened Basics
  import opened Strings
  import opened Tokens
  import opened Decimal
  import opened Strategies
  import Documents
  import Values

  type Value = Values.Value

  datatype Kind =
    | Auth(password: string)
    | Create(strategy: Strategy, ttl: Option<nat>)
    | Get(place: Option<string>)
    | Set(path: string, value: Value)
    | Delete(place: Option<string>)
    | Subscribe(pattern: string, place: Option<string>)
    | Unsubscribe(pattern: string)
    | Push(path: string, value: Value)
    | Increment(path: string, delta: int)
    | Presence(data: Option<Value>)
    | Ping
    | Quit
    | Info
    | Keys(glob: Option<string>)
    | Compact
    | Expire(ttlMs: nat)
    | Ttl
    | Backup
    | Restore(backup: string)

  datatype Command = Command(kind: Kind, id: Option<string>)

  datatype ParseError = InvalidCommand | MissingArgument | InvalidArgument | InvalidJson | TooLarge

  datatype Parsed = Parsed(command: Command) | Bad(error: ParseError)

  /** `serde_json::from_str` followed by `json_to_value`; None for a text that is not JSON. */
  type Json = string -> Option<Value>

  // ---------- ASCII white space and case ----------

  function TrimLeft(s: string): string {
    if s != "" && White(s[0]) then TrimLeft(s[1..]) else s
  }

  function TrimRight(s: string): string {
    if s != "" && White(s[|s| - 1]) then TrimRight(s[..|s| - 1]) else s
  }

  function Trim(s: string): string {
    TrimRight(TrimLeft(s))
  }

  predicate Trimmed(s: string) {
    s != "" ==> !White(s[0]) && !White(s[|s| - 1])
  }

  function UpperChar(c: char): char {
    if 'a' <= c <= 'z' then (c as int - 32) as char else c
  }

  function Upper(s: string): string {
    seq(|s|, i requires 0 <= i < |s| => UpperChar(s[i]))
  }

  // ---------- parsing ----------

  function ParseValue(text: string, json: Json): Value {
    var t := Trim(text);
    match json(t)
    case Some(v) => v
    case None => Values.Str(t)
  }

  function One(kind: Kind, id: string): Parsed {
    Parsed(Command(kind, Some(id)))
  }

  function Bare0(kind: Kind): Parsed {
    Parsed(Command(kind, None))
  }

  function ParseAuth(s: string, pos: nat): Parsed
    requires pos <= |s|
  {
    match NextToken(s, pos).0
    case Some(password) => Bare0(Auth(password))
    case None => Bad(MissingArgument)
  }

  function CreateOptions(s: string, pos: nat, id: string, strategy: Strategy, ttl: Option<nat>): Parsed
    requires pos <= |s|
    decreases |s| - pos
  {
    match NextToken(s, pos)
    case (None, _) => One(Create(strategy, ttl), id)
    case (Some(opt), p) =>
      if Upper(opt) == "STRATEGY" then
        (match NextToken(s, p)
         case (None, _) => Bad(MissingArgument)
         case (Some(name), q) =>
           (match ParseStrategy(name)
            case Some(st) => CreateOptions(s, q, id, st, ttl)
            case None => Bad(InvalidArgument)))
      else if Upper(opt) == "TTL" then
        (match NextToken(s, p)
         case (None, _) => Bad(MissingArgument)
         case (Some(t), q) =>
           (match ParseUnsigned(t)
            case Some(ms) => CreateOptions(s, q, id, strategy, Some(ms))
            case None => Bad(InvalidArgument)))
      else Bad(InvalidArgument)
  }

  function GetOptions(s: string, pos: nat, id: string, place: Option<string>): Parsed
    requires pos <= |s|
    decreases |s| - pos
  {
    match NextToken(s, pos)
    case (None, _) => One(Get(place), id)
    case (Some(opt), p) =>
      if Upper(opt) == "PATH" then
        (match NextToken(s, p)
         case (None, _) => Bad(MissingArgument)
         case (Some(path), q) => GetOptions(s, q, id, Some(path)))
      else GetOptions(s, p, id, Some(opt))
  }

  function DeleteOption(s: string, pos: nat, id: string): Parsed
    requires pos <= |s|
  {
    match NextToken(s, pos)
    case (None, _) => One(Delete(None), id)
    case (Some(opt), p) =>
      if Upper(opt) == "PATH" then
        (match NextToken(s, p).0
         case None => Bad(MissingArgument)
         case Some(path) => One(Delete(Some(path)), id))
      else One(Delete(Some(opt)), id)
  }

  function SubscribeOptions(s: string, pos: nat, pattern: string, place: Option<string>): Parsed
    requires pos <= |s|
    decreases |s| - pos
  {
    match NextToken(s, pos)
    case (None, _) => One(Subscribe(pattern, place), pattern)
    case (Some(opt), p) =>
      if Upper(opt) == "PATH" then
        (match NextToken(s, p)
         case (None, _) => Bad(MissingArgument)
         case (Some(path), q) => SubscribeOptions(s, q, pattern, Some(path)))
      else Bad(InvalidArgument)
  }

  /** SET and PUSH: an id, a path, and the rest of the line as the value. */
  function ParseWrite(s: string, pos: nat, json: Json, push: bool): Parsed
    requires pos <= |s|
  {
    match NextToken(s, pos)
    case (None, _) => Bad(MissingArgument)
    case (Some(id), p) =>
      match NextToken(s, p)
      case (None, _) => Bad(MissingArgument)
      case (Some(path), q) =>
        match RestFrom(s, q).0
        case None => Bad(MissingArgument)
        case Some(raw) =>
          var v := ParseValue(raw, json);
          One(if push then Push(path, v) else Set(path, v), id)
  }

  function ParseIncrement(s: string, pos: nat): Parsed
    requires pos <= |s|
  {
    match NextToken(s, pos)
    case (None, _) => Bad(MissingArgument)
    case (Some(id), p) =>
      match NextToken(s, p)
      case (None, _) => Bad(MissingArgument)
      case (Some(path), q) =>
        var text := NextToken(s, q).0;
        match ParseI64(if text.Some? then text.value else "1")
        case Some(delta) => One(Increment(path, delta), id)
        case None => Bad(InvalidArgument)
  }

  /** The option loop of PRESENCE: every DATA takes the rest of the line, so the
    * loop ends after it; any other token starts the JSON itself. */
  function PresenceOptions(s: string, pos: nat, json: Json, id: string): Parsed
    requires pos <= |s|
  {
    match NextToken(s, pos)
    case (None, _) => One(Presence(None), id)
    case (Some(opt), p) =>
      var rest := RestFrom(s, p).0;
      if Upper(opt) == "DATA" && rest.None? then Bad(MissingArgument) else
      var text := if Upper(opt) == "DATA" then rest.value
                  else Trim(opt + " " + if rest.Some? then rest.value else "");
      match json(text)
      case Some(v) => One(Presence(Some(v)), id)
      case None => Bad(InvalidJson)
  }

  function ParseExpire(s: string, pos: nat): Parsed
    requires pos <= |s|
  {
    match NextToken(s, pos)
    case (None, _) => Bad(MissingArgument)
    case (Some(id), p) =>
      match NextToken(s, p).0
      case None => Bad(MissingArgument)
      case Some(t) =>
        match ParseUnsigned(t)
        case Some(ms) => One(Expire(ms), id)
        case None => Bad(InvalidArgument)
  }

  function ParseRestore(s: string, pos: nat, json: Json): Parsed
    requires pos <= |s|
  {
    match RestFrom(s, pos).0
    case None => Bad(MissingArgument)
    case Some(raw) => if json(Trim(raw)).Some? then Bare0(Restore(Trim(raw))) else Bad(InvalidJson)
  }

  /** The command words. */
  datatype Verb =
    | AuthVerb | CreateVerb | GetVerb | SetVerb | DelVerb | SubVerb | UnsubVerb | PushVerb | IncVerb | PresenceVerb
    | PingVerb | QuitVerb | InfoVerb | KeysVerb | CompactVerb | ExpireVerb | TtlVerb | BackupVerb | RestoreVerb

  function VerbOf(cmd: string): Option<Verb> {
    if cmd == "AUTH" then Some(AuthVerb)
    else if cmd == "CREATE" then Some(CreateVerb)
    else if cmd == "GET" then Some(GetVerb)
    else if cmd == "SET" then Some(SetVerb)
    else if cmd == "DEL" || cmd == "DELETE" then Some(DelVerb)
    else if cmd == "SUB" || cmd == "SUBSCRIBE" then Some(SubVerb)
    else if cmd == "UNSUB" || cmd == "UNSUBSCRIBE" then Some(UnsubVerb)
    else if cmd == "PUSH" then Some(PushVerb)
    else if cmd == "INC" || cmd == "INCR" || cmd == "INCREMENT" then Some(IncVerb)
    else if cmd == "PRESENCE" then Some(PresenceVerb)
    else if cmd == "PING" then Some(PingVerb)
    else if cmd == "QUIT" then Some(QuitVerb)
    else if cmd == "INFO" then Some(InfoVerb)
    else if cmd == "KEYS" then Some(KeysVerb)
    else if cmd == "COMPACT" then Some(CompactVerb)
    else if cmd == "EXPIRE" then Some(ExpireVerb)
    else if cmd == "TTL" then Some(TtlVerb)
    else if cmd == "BACKUP" then Some(BackupVerb)
    else if cmd == "RESTORE" then Some(RestoreVerb)
    else None
  }

  /** Arguments that begin with a document id (or a pattern). */
  function ParseWithId(verb: Verb, s: string, pos: nat, json: Json): Parsed
    requires pos <= |s|
  {
    match NextToken(s, pos)
    case (None, _) => Bad(MissingArgument)
    case (Some(id), p) =>
      match verb
      case CreateVerb => CreateOptions(s, p, id, Documents.Lww, None)
      case GetVerb => GetOptions(s, p, id, None)
      case DelVerb => DeleteOption(s, p, id)
      case SubVerb => SubscribeOptions(s, p, id, None)
      case UnsubVerb => One(Unsubscribe(id), id)
      case PresenceVerb => PresenceOptions(s, p, json, id)
      case CompactVerb => One(Compact, id)
      case _ => One(Ttl, id)
  }

  function ParseArguments(verb: Verb, s: string, p: nat, json: Json): Parsed
    requires p <= |s|
  {
    match verb
    case AuthVerb => ParseAuth(s, p)
    case SetVerb => ParseWrite(s, p, json, false)
    case PushVerb => ParseWrite(s, p, json, true)
    case IncVerb => ParseIncrement(s, p)
    case PingVerb => Bare0(Ping)
    case QuitVerb => Bare0(Quit)
    case InfoVerb => Bare0(Info)
    case KeysVerb => Bare0(Keys(NextToken(s, p).0))
    case ExpireVerb => ParseExpire(s, p)
    case BackupVerb => Bare0(Backup)
    case RestoreVerb => ParseRestore(s, p, json)
    case _ => ParseWithId(verb, s, p, json)
  }

  /** `parse_line`. */
  function ParseLine(line: string, json: Json): Parsed {
    var s := Trim(line);
    match NextToken(s, 0)
    case (None, _) => Bad(InvalidCommand)
    case (Some(word), p) =>
      match VerbOf(Upper(word))
      case Some(verb) => ParseArguments(verb, s, p, json)
      case None => Bad(InvalidCommand)
  }
}
