/** Every command can be written as a line that parses back to it. */
module CommandLines {
  import opened Basics
  import opened Strings
  import opened Tokens
  import opened Decimal
  import opened Commands
  import opened Strategies
  import Documents
  import Values

  /** A line: the command word, spelled arguments, and for some commands raw text to the end. */
  datatype Line = Line(word: string, args: seq<Spelling>, raw: string)

  predicate Letters(w: string) {
    w != "" && forall i :: 0 <= i < |w| ==> 'A' <= w[i] <= 'Z' || 'a' <= w[i] <= 'z'
  }

  /** The word calls the command, in whatever case. */
  predicate Means(w: string, verb: Verb) {
    Letters(w) && VerbOf(Upper(w)) == Some(verb)
  }

  function WordOf(verb: Verb): string {
    match verb
    case AuthVerb => "AUTH"
    case CreateVerb => "CREATE"
    case GetVerb => "GET"
    case SetVerb => "SET"
    case DelVerb => "DEL"
    case SubVerb => "SUB"
    case UnsubVerb => "UNSUB"
    case PushVerb => "PUSH"
    case IncVerb => "INC"
    case PresenceVerb => "PRESENCE"
    case PingVerb => "PING"
    case QuitVerb => "QUIT"
    case InfoVerb => "INFO"
    case KeysVerb => "KEYS"
    case CompactVerb => "COMPACT"
    case ExpireVerb => "EXPIRE"
    case TtlVerb => "TTL"
    case BackupVerb => "BACKUP"
    case RestoreVerb => "RESTORE"
  }

  lemma VerbOfWord(verb: Verb)
    ensures VerbOf(WordOf(verb)) == Some(verb) && Capitals(WordOf(verb))
  {
    ShortWords(verb);
    LongWords(verb);
    WordsAreCapitals(verb);
  }

  /** In any mixture of capitals and small letters. */
  lemma AnyCaseMeans(w: string, verb: Verb)
    requires |w| == |WordOf(verb)|
    requires forall i :: 0 <= i < |w| ==> w[i] == WordOf(verb)[i] || w[i] as int == WordOf(verb)[i] as int + 32
    ensures Means(w, verb)
  {
    hide VerbOf, WordOf;
    VerbOfWord(verb);
    assert Upper(w) == WordOf(verb);
  }

  /** The other words for a command. */
  lemma OtherWordsMean()
    ensures Means("DELETE", DelVerb) && Means("SUBSCRIBE", SubVerb) && Means("UNSUBSCRIBE", UnsubVerb)
    ensures Means("INCR", IncVerb) && Means("INCREMENT", IncVerb)
  {
    CapitalsAreUpper("DELETE");
    CapitalsAreUpper("SUBSCRIBE");
    CapitalsAreUpper("UNSUBSCRIBE");
    CapitalsAreUpper("INCR");
    CapitalsAreUpper("INCREMENT");
    LongAliases();
  }

  lemma LongAliases()
    ensures VerbOf("SUBSCRIBE") == Some(SubVerb) && VerbOf("UNSUBSCRIBE") == Some(UnsubVerb)
    ensures VerbOf("INCREMENT") == Some(IncVerb)
  {}

  predicate IsLong(verb: Verb) {
    verb.CreateVerb? || verb.UnsubVerb? || verb.PresenceVerb? || verb.CompactVerb? || verb.ExpireVerb? ||
        verb.BackupVerb? || verb.RestoreVerb?
  }

  lemma ShortWords(verb: Verb)
    ensures !IsLong(verb) ==> VerbOf(WordOf(verb)) == Some(verb)
  {}

  lemma LongWords(verb: Verb)
    ensures IsLong(verb) ==> VerbOf(WordOf(verb)) == Some(verb)
  {}

  lemma WordsAreCapitals(verb: Verb)
    ensures Capitals(WordOf(verb))
  {}

  function Tail(l: Line): string {
    if l.raw == "" then "" else " " + l.raw
  }

  function Text(l: Line): string {
    l.word + SpellAll(l.args) + Tail(l)
  }

  /** The caller's way of writing a text: bare or quoted, not ending in white space. */
  type Style = string -> Spelling

  predicate Sound(style: Style, t: string) {
    var x := style(t);
    x.text == t && Spellable(x) && !White(Spell(x)[|Spell(x)| - 1])
  }

  function Keyword(t: string): Spelling {
    Bare(t)
  }

  function Number(n: int): Spelling {
    Bare(PrintInt(n))
  }

  function PathArgs(place: Option<Spelling>): seq<Spelling> {
    if place.Some? then [Keyword("PATH"), place.value] else []
  }

  function TtlArgs(ttl: Option<nat>): seq<Spelling> {
    if ttl.Some? then [Keyword("TTL"), Number(ttl.value)] else []
  }

  function StyledPlace(place: Option<string>, style: Style): Option<Spelling> {
    if place.Some? then Some(style(place.value)) else None
  }

  /** The caller's word for each command. */
  type Words = Verb -> string

  ghost predicate Fluent(words: Words) {
    forall verb :: Means(words(verb), verb)
  }

  /** The line of a command; `raw` is the value, presence or backup text where there is one. */
  function Render(c: Command, raw: string, style: Style, words: Words): Line {
    var id := if c.id.Some? then style(c.id.value) else style("");
    match c.kind
    case Auth(password) => Line(words(AuthVerb), [style(password)], "")
    case Create(strategy, ttl) =>
      Line(words(CreateVerb), [id, Keyword("STRATEGY"), Keyword(StrategyName(strategy))] +
                       TtlArgs(ttl), "")
    case Get(place) => Line(words(GetVerb), [id] + PathArgs(StyledPlace(place, style)), "")
    case Set(path, _) => Line(words(SetVerb), [id, style(path)], raw)
    case Delete(place) => Line(words(DelVerb), [id] + PathArgs(StyledPlace(place, style)), "")
    case Subscribe(pattern, place) =>
      Line(words(SubVerb), [style(pattern)] + PathArgs(StyledPlace(place, style)), "")
    case Unsubscribe(pattern) => Line(words(UnsubVerb), [style(pattern)], "")
    case Push(path, _) => Line(words(PushVerb), [id, style(path)], raw)
    case Increment(path, delta) => Line(words(IncVerb), [id, style(path), Number(delta)], "")
    case Presence(data) =>
      if data.Some? then Line(words(PresenceVerb), [id, Keyword("DATA")], raw) else Line(words(PresenceVerb), [id], "")
    case Ping => Line(words(PingVerb), [], "")
    case Quit => Line(words(QuitVerb), [], "")
    case Info => Line(words(InfoVerb), [], "")
    case Keys(glob) => Line(words(KeysVerb), if glob.Some? then [style(glob.value)] else [], "")
    case Compact => Line(words(CompactVerb), [id], "")
    case Expire(ms) => Line(words(ExpireVerb), [id, Number(ms)], "")
    case Ttl => Line(words(TtlVerb), [id], "")
    case Backup => Line(words(BackupVerb), [], "")
    case Restore(_) => Line(words(RestoreVerb), [], raw)
  }

  /** The texts of a command that its line spells. */
  function Spelled(c: Command): seq<string> {
    (if c.id.Some? then [c.id.value] else []) +
    match c.kind
    case Auth(password) => [password]
    case Get(Some(path)) => [path]
    case Set(path, _) => [path]
    case Delete(Some(path)) => [path]
    case Subscribe(_, Some(path)) => [path]
    case Push(path, _) => [path]
    case Increment(path, _) => [path]
    case Keys(Some(glob)) => [glob]
    case _ => []
  }

  /** A command the constructors of the protocol build. */
  predicate Proper(c: Command) {
    match c.kind
    case Auth(_) => c.id.None?
    case Ping => c.id.None?
    case Quit => c.id.None?
    case Info => c.id.None?
    case Keys(_) => c.id.None?
    case Backup => c.id.None?
    case Restore(_) => c.id.None?
    case Subscribe(pattern, _) => c.id == Some(pattern)
    case Unsubscribe(pattern) => c.id == Some(pattern)
    case Create(_, Some(ms)) => c.id.Some? && ms < TWO_64
    case Expire(ms) => c.id.Some? && ms < TWO_64
    case Increment(_, delta) => c.id.Some? && -TWO_63 <= delta < TWO_63
    case _ => c.id.Some?
  }

  /** `raw` is the text of the command's value, where it has one. */
  predicate RawFor(c: Command, raw: string, json: Json) {
    match c.kind
    case Set(_, v) => raw != "" && Trimmed(raw) && Denotes(raw, v, json)
    case Push(_, v) => raw != "" && Trimmed(raw) && Denotes(raw, v, json)
    case Presence(Some(v)) => raw != "" && Trimmed(raw) && json(raw) == Some(v)
    case Restore(data) => raw == data && raw != "" && Trimmed(raw) && json(raw).Some?
    case _ => true
  }

  // ---------- walking a line ----------

  /** `pos` is where the arguments from the `k`-th on begin. */
  predicate AtArg(l: Line, k: nat, pos: nat) {
    k <= |l.args| && pos <= |Text(l)| && Text(l)[pos..] == SpellAll(l.args[k..]) + Tail(l)
  }

  predicate Readable(l: Line) {
    && (forall i :: 0 <= i < |l.args| ==> Spellable(l.args[i]))
    && (l.raw != "" ==> l.raw[0] != ' ')
  }

  lemma FirstArg(l: Line)
    ensures AtArg(l, 0, |l.word|)
  {
    hide SpellAll, Tail;
    assert l.args[0..] == l.args;
    assert l.word + SpellAll(l.args) + Tail(l) == l.word + (SpellAll(l.args) + Tail(l));
    assert Text(l)[|l.word|..] == SpellAll(l.args) + Tail(l);
  }

  lemma Arg(l: Line, k: nat, pos: nat) returns (to: nat)
    requires Readable(l) && k < |l.args| && AtArg(l, k, pos)
    ensures NextToken(Text(l), pos) == (Some(l.args[k].text), to) && AtArg(l, k + 1, to)
  {
    hide NextToken, Spell, Spellable;
    var after := SpellAll(l.args[k + 1..]) + Tail(l);
    assert l.args[k..][1..] == l.args[k + 1..];
    assert SpellAll(l.args[k..]) == " " + Spell(l.args[k]) + SpellAll(l.args[k + 1..]);
    assert Text(l)[pos..] == " " + Spell(l.args[k]) + after;
    SpaceFirst(l.args[k + 1..]);
    NextSpelled(Text(l), pos, l.args[k], after);
    to := pos + 1 + |Spell(l.args[k])|;
  }

  lemma NoMoreArgs(l: Line, pos: nat)
    requires AtArg(l, |l.args|, pos) && l.raw == ""
    ensures pos <= |Text(l)| && NextToken(Text(l), pos).0 == None
  {
    assert Text(l)[pos..] == "";
  }

  lemma RawAt(s: string, pos: nat, raw: string)
    requires pos <= |s| && s[pos..] == " " + raw && raw != "" && raw[0] != ' '
    ensures RestFrom(s, pos).0 == Some(raw)
  {
    assert s[pos] == s[pos..][0] && s[pos + 1] == s[pos..][1];
    SkipIs(s, pos, pos + 1);
    assert s[pos + 1..] == s[pos..][1..] == raw;
  }

  lemma RawArg(l: Line, pos: nat)
    requires Readable(l) && AtArg(l, |l.args|, pos) && l.raw != ""
    ensures pos <= |Text(l)| && RestFrom(Text(l), pos).0 == Some(l.raw)
  {
    hide Text, RestFrom;
    assert l.args[|l.args|..] == [];
    assert "" + Tail(l) == Tail(l);
    RawAt(Text(l), pos, l.raw);
  }

  // ---------- the whole line ----------

  predicate Capitals(w: string) {
    w != "" && forall i :: 0 <= i < |w| ==> 'A' <= w[i] <= 'Z'
  }

  lemma CapitalsAreUpper(w: string)
    requires Capitals(w)
    ensures Upper(w) == w
  {}

  lemma TrimOfTrimmed(s: string)
    requires Trimmed(s)
    ensures Trim(s) == s
  {}

  /** The last character of a line is not white space. */
  predicate EndsWell(l: Line) {
    if l.raw != "" then !White(l.raw[|l.raw| - 1])
    else l.args != [] ==>
      var last := Spell(l.args[|l.args| - 1]);
      last != "" && !White(last[|last| - 1])
  }

  lemma {:induction false} SpellAllEnd(xs: seq<Spelling>)
    requires xs != [] && Spell(xs[|xs| - 1]) != ""
    ensures SpellAll(xs) != "" && SpellAll(xs)[|SpellAll(xs)| - 1] == Spell(xs[|xs| - 1])[|Spell(xs[|xs| - 1])| - 1]
  {
    hide Spell;
    var rest := SpellAll(xs[1..]);
    assert SpellAll(xs) == " " + Spell(xs[0]) + rest;
    if |xs| > 1 {
      SpellAllEnd(xs[1..]);
      assert SpellAll(xs)[|SpellAll(xs)| - 1] == rest[|rest| - 1];
    }
  }

  lemma LineIsTrimmed(l: Line)
    requires EndsWell(l) && Letters(l.word)
    ensures Trimmed(Text(l)) && Trim(Text(l)) == Text(l)
  {
    hide Spell, TrimLeft, TrimRight;
    var s := Text(l);
    assert s[0] == l.word[0];
    if l.raw != "" {
      assert s[|s| - 1] == l.raw[|l.raw| - 1];
    } else if l.args != [] {
      SpellAllEnd(l.args);
      assert s[|s| - 1] == SpellAll(l.args)[|SpellAll(l.args)| - 1];
    } else {
      assert s == l.word;
    }
    TrimOfTrimmed(s);
  }

  lemma CommandWord(l: Line)
    requires Letters(l.word)
    ensures NextToken(Text(l), 0) == (Some(l.word), |l.word|)
  {
    var s, w := Text(l), l.word;
    assert forall i :: 0 <= i < |w| ==> s[i] == w[i];
    SkipIs(s, 0, 0);
    assert s[..|w|] == w;
    SpaceFirst(l.args);
    if |w| < |s| {
      assert s[|w|] == (SpellAll(l.args) + Tail(l))[0] == ' ';
    }
    NextOfSpell(s, 0, Bare(w), |w|);
  }

  // ---------- the round trip, command by command ----------

  ghost predicate Renderable(c: Command, raw: string, style: Style, json: Json) {
    Proper(c) && RawFor(c, raw, json) && forall t :: t in Spelled(c) ==> Sound(style, t)
  }

  predicate GoodArg(x: Spelling) {
    Spellable(x) && !White(Spell(x)[|Spell(x)| - 1])
  }

  lemma NumbersAreGood(n: int)
    ensures GoodArg(Number(n))
  {}

  lemma KeywordsAreGood(t: string)
    requires t != "" && forall i :: 0 <= i < |t| ==> 'A' <= t[i] <= 'Z' || 'a' <= t[i] <= 'z' || t[i] == '-'
    ensures GoodArg(Keyword(t))
  {}

  lemma StrategyNamesAreGood(s: Strategy)
    ensures GoodArg(Keyword(StrategyName(s)))
  {}

  lemma GoodLine(l: Line)
    requires (l.raw != "" ==> Trimmed(l.raw))
    requires forall i :: 0 <= i < |l.args| ==> GoodArg(l.args[i])
    ensures Readable(l) && EndsWell(l)
  {}

  /** Ready to be parsed: the cursor stands in front of the first argument. */
  lemma Start(l: Line, verb: Verb, json: Json) returns (p0: nat)
    requires Means(l.word, verb) && (l.raw != "" ==> Trimmed(l.raw))
    requires forall i :: 0 <= i < |l.args| ==> GoodArg(l.args[i])
    ensures Readable(l) && AtArg(l, 0, p0)
    ensures p0 <= |Text(l)| && ParseLine(Text(l), json) == ParseArguments(verb, Text(l), p0, json)
  {
    hide ParseArguments, VerbOf, Trim;
    GoodLine(l);
    LineIsTrimmed(l);
    CommandWord(l);
    FirstArg(l);
    p0 := |l.word|;
  }

  lemma LonelyLine(word: string, verb: Verb, json: Json)
    requires Means(word, verb)
    requires verb.PingVerb? || verb.QuitVerb? || verb.InfoVerb? || verb.BackupVerb? || verb.KeysVerb?
    ensures var kind := if verb.PingVerb? then Ping else if verb.QuitVerb? then Quit else if verb.InfoVerb? then Info
                        else if verb.BackupVerb? then Backup else Keys(None);
            ParseLine(Text(Line(word, [], "")), json) == Bare0(kind)
  {
    hide Means, AtArg, Readable, ParseLine, Text, NextToken;
    var l := Line(word, [], "");
    var p0 := Start(l, verb, json);
    NoMoreArgs(l, p0);
  }

  lemma OneArgLine(word: string, verb: Verb, x: Spelling, json: Json)
    requires Means(word, verb) && GoodArg(x)
    requires verb.AuthVerb? || verb.KeysVerb? || verb.UnsubVerb? || verb.CompactVerb? || verb.TtlVerb? ||
            verb.PresenceVerb?
    ensures ParseLine(Text(Line(word, [x], "")), json) ==
              match verb
              case AuthVerb => Bare0(Auth(x.text))
              case KeysVerb => Bare0(Keys(Some(x.text)))
              case UnsubVerb => One(Unsubscribe(x.text), x.text)
              case CompactVerb => One(Compact, x.text)
              case TtlVerb => One(Ttl, x.text)
              case _ => One(Presence(None), x.text)
  {
    hide Means, AtArg, Readable, ParseLine, Text, NextToken;
    var l := Line(word, [x], "");
    var p0 := Start(l, verb, json);
    var p1 := Arg(l, 0, p0);
    NoMoreArgs(l, p1);
  }

  function TextOf(place: Option<Spelling>): Option<string> {
    if place.Some? then Some(place.value.text) else None
  }

  /** The cursor in front of an optional PATH and its argument, which end the line. */
  lemma PlaceArgs(l: Line, k: nat, p: nat, place: Option<Spelling>) returns (q: nat, e: nat)
    requires Readable(l) && AtArg(l, k, p) && l.raw == "" && l.args[k..] == PathArgs(place)
    ensures p <= |Text(l)|
    ensures match place
            case None => NextToken(Text(l), p).0 == None
            case Some(x) => p < q <= e <= |Text(l)| && NextToken(Text(l), p) == (Some("PATH"), q) &&
                            NextToken(Text(l), q) == (Some(x.text), e) && NextToken(Text(l), e).0 == None
  {
    hide Text, NextToken;
    q, e := p, p;
    if place.Some? {
      assert l.args[k] == l.args[k..][0] && l.args[k + 1] == l.args[k..][1];
      q := Arg(l, k, p);
      e := Arg(l, k + 1, q);
      NoMoreArgs(l, e);
    } else {
      NoMoreArgs(l, p);
    }
  }

  /** The option loops of GET and SUB take the path, and DEL's single option too. */
  lemma GetPlace(s: string, p: nat, q: nat, e: nat, id: string, path: string)
    requires p < q <= e <= |s| && NextToken(s, p) == (Some("PATH"), q)
    requires NextToken(s, q) == (Some(path), e) && NextToken(s, e).0 == None
    ensures GetOptions(s, p, id, None) == One(Get(Some(path)), id)
  {
    hide NextToken, Upper;
    CapitalsAreUpper("PATH");
    assert GetOptions(s, e, id, Some(path)) == One(Get(Some(path)), id);
  }

  lemma SubPlace(s: string, p: nat, q: nat, e: nat, id: string, path: string)
    requires p < q <= e <= |s| && NextToken(s, p) == (Some("PATH"), q)
    requires NextToken(s, q) == (Some(path), e) && NextToken(s, e).0 == None
    ensures SubscribeOptions(s, p, id, None) == One(Subscribe(id, Some(path)), id)
  {
    hide NextToken, Upper;
    CapitalsAreUpper("PATH");
    assert SubscribeOptions(s, e, id, Some(path)) == One(Subscribe(id, Some(path)), id);
  }

  lemma DelPlace(s: string, p: nat, q: nat, e: nat, id: string, path: string)
    requires p < q <= e <= |s| && NextToken(s, p) == (Some("PATH"), q) && NextToken(s, q) == (Some(path), e)
    ensures DeleteOption(s, p, id) == One(Delete(Some(path)), id)
  {
    hide NextToken, Upper;
    CapitalsAreUpper("PATH");
  }

  lemma NoPlace(s: string, p: nat, id: string)
    requires p <= |s| && NextToken(s, p).0 == None
    ensures GetOptions(s, p, id, None) == One(Get(None), id)
    ensures SubscribeOptions(s, p, id, None) == One(Subscribe(id, None), id)
    ensures DeleteOption(s, p, id) == One(Delete(None), id)
  {
    hide NextToken;
  }

  lemma PlaceLine(word: string, verb: Verb, x: Spelling, place: Option<Spelling>, json: Json)
    requires Means(word, verb) && GoodArg(x) && (place.Some? ==> GoodArg(place.value))
    requires verb.GetVerb? || verb.DelVerb? || verb.SubVerb?
    ensures ParseLine(Text(Line(word, [x] + PathArgs(place), "")), json) ==
              One(if verb.GetVerb? then Get(TextOf(place)) else if verb.DelVerb? then Delete(TextOf(place))
                  else Subscribe(x.text, TextOf(place)), x.text)
  {
    hide Means, AtArg, Readable, ParseLine, Text, NextToken, Upper, GoodArg, GetOptions, SubscribeOptions, DeleteOption;
    var l := Line(word, [x] + PathArgs(place), "");
    KeywordsAreGood("PATH");
    var p0 := Start(l, verb, json);
    var p1 := Arg(l, 0, p0);
    assert l.args[1..] == PathArgs(place);
    var q, e := PlaceArgs(l, 1, p1, place);
    if place.None? {
      NoPlace(Text(l), p1, x.text);
    } else if verb.GetVerb? {
      GetPlace(Text(l), p1, q, e, x.text, place.value.text);
    } else if verb.SubVerb? {
      SubPlace(Text(l), p1, q, e, x.text, place.value.text);
    } else {
      DelPlace(Text(l), p1, q, e, x.text, place.value.text);
    }
  }

  /** A text that is JSON denotes what it reads as; any other denotes itself. */
  predicate Denotes(raw: string, v: Value, json: Json) {
    json(raw) == Some(v) || (json(raw) == None && v == Values.Str(raw))
  }

  lemma ParseValueDenotes(raw: string, json: Json)
    requires Trimmed(raw)
    ensures Denotes(raw, ParseValue(raw, json), json)
  {
    TrimOfTrimmed(raw);
  }

  lemma WriteLine(word: string, push: bool, x: Spelling, path: Spelling, raw: string, v: Value, json: Json)
    requires Means(word, if push then PushVerb else SetVerb)
    requires GoodArg(x) && GoodArg(path) && raw != "" && Trimmed(raw)
    requires json(raw) == Some(v) || (json(raw) == None && v == Values.Str(raw))
    ensures ParseLine(Text(Line(word, [x, path], raw)), json) ==
              Parsed(Command(if push then Push(path.text, v) else Set(path.text, v), Some(x.text)))
  {
    hide Means, AtArg, Readable, ParseLine, Text, NextToken, RestFrom, ParseValue, GoodArg, Trimmed;
    var l := Line(word, [x, path], raw);
    ParseValueDenotes(raw, json);
    var p0 := Start(l, if push then PushVerb else SetVerb, json);
    var p1 := Arg(l, 0, p0);
    var p2 := Arg(l, 1, p1);
    RawArg(l, p2);
  }

  lemma IncrementLine(word: string, x: Spelling, path: Spelling, delta: int, json: Json)
    requires Means(word, IncVerb) && GoodArg(x) && GoodArg(path) && -TWO_63 <= delta < TWO_63
    ensures ParseLine(Text(Line(word, [x, path, Number(delta)], "")), json) ==
            One(Increment(path.text, delta), x.text)
  {
    hide Means, AtArg, Readable, ParseLine, Text, NextToken, PrintInt, ParseI64, GoodArg;
    var l := Line(word, [x, path, Number(delta)], "");
    NumbersAreGood(delta);
    ParseOfPrintInt(delta);
    var p0 := Start(l, IncVerb, json);
    var p1 := Arg(l, 0, p0);
    var p2 := Arg(l, 1, p1);
    var p3 := Arg(l, 2, p2);
  }

  lemma ExpireLine(word: string, x: Spelling, ms: nat, json: Json)
    requires Means(word, ExpireVerb) && GoodArg(x) && ms < TWO_64
    ensures ParseLine(Text(Line(word, [x, Number(ms)], "")), json) == One(Expire(ms), x.text)
  {
    hide Means, AtArg, Readable, ParseLine, Text, NextToken, Print, ParseBelow;
    var l := Line(word, [x, Number(ms)], "");
    NumbersAreGood(ms);
    ParseOfPrint(ms, TWO_64);
    var p0 := Start(l, ExpireVerb, json);
    var p1 := Arg(l, 0, p0);
    var p2 := Arg(l, 1, p1);
  }

  lemma PresenceLine(word: string, x: Spelling, raw: string, json: Json)
    requires Means(word, PresenceVerb) && GoodArg(x) && raw != "" && Trimmed(raw) && json(raw).Some?
    ensures ParseLine(Text(Line(word, [x, Keyword("DATA")], raw)), json) == One(Presence(json(raw)), x.text)
  {
    hide Means, AtArg, Readable, ParseLine, Text, NextToken, RestFrom, GoodArg, Trimmed, Upper;
    var l := Line(word, [x, Keyword("DATA")], raw);
    KeywordsAreGood("DATA");
    CapitalsAreUpper("DATA");
    var p0 := Start(l, PresenceVerb, json);
    var p1 := Arg(l, 0, p0);
    var p2 := Arg(l, 1, p1);
    RawArg(l, p2);
  }

  lemma RestoreLine(word: string, raw: string, json: Json)
    requires Means(word, RestoreVerb) && raw != "" && Trimmed(raw) && json(raw).Some?
    ensures ParseLine(Text(Line(word, [], raw)), json) == Bare0(Restore(raw))
  {
    hide Means, AtArg, Readable, ParseLine, Text, NextToken, RestFrom;
    var l := Line(word, [], raw);
    TrimOfTrimmed(raw);
    var p0 := Start(l, RestoreVerb, json);
    RawArg(l, p0);
  }

  /** The cursor in front of an optional TTL and its number, which end the line. */
  lemma TtlEnds(l: Line, p: nat, id: string, st: Strategy, ttl: Option<nat>)
    requires Readable(l) && l.raw == "" && AtArg(l, 3, p) && l.args[3..] == TtlArgs(ttl)
    requires ttl.Some? ==> ttl.value < TWO_64
    ensures p <= |Text(l)| && CreateOptions(Text(l), p, id, st, None) == One(Create(st, ttl), id)
  {
    hide Text, NextToken, Print, ParseBelow, ParseStrategy, Upper;
    CapitalsAreUpper("TTL");
    if ttl.Some? {
      assert l.args[3] == l.args[3..][0] && l.args[4] == l.args[3..][1];
      ParseOfPrint(ttl.value, TWO_64);
      var p4 := Arg(l, 3, p);
      var p5 := Arg(l, 4, p4);
      NoMoreArgs(l, p5);
      assert CreateOptions(Text(l), p5, id, st, ttl) == One(Create(st, ttl), id);
    } else {
      NoMoreArgs(l, p);
    }
  }

  lemma CreateLine(word: string, x: Spelling, st: Strategy, ttl: Option<nat>, json: Json)
    requires Means(word, CreateVerb) && GoodArg(x) && (ttl.Some? ==> ttl.value < TWO_64)
    ensures ParseLine(Text(Line(word, [x, Keyword("STRATEGY"), Keyword(StrategyName(st))] + TtlArgs(ttl), "")),
            json)
         == One(Create(st, ttl), x.text)
  {
    hide Means, AtArg, Readable, ParseLine, Text, NextToken, Print, ParseBelow, StrategyName, ParseStrategy;
    hide Upper, GoodArg, CreateOptions;
    var l := Line(word, [x, Keyword("STRATEGY"), Keyword(StrategyName(st))] + TtlArgs(ttl), "");
    KeywordsAreGood("STRATEGY");
    StrategyNamesAreGood(st);
    KeywordsAreGood("TTL");
    if ttl.Some? {
      NumbersAreGood(ttl.value);
    }
    var p0 := Start(l, CreateVerb, json);
    var p1 := Arg(l, 0, p0);
    var p2 := Arg(l, 1, p1);
    var p3 := Arg(l, 2, p2);
    assert l.args[3..] == TtlArgs(ttl);
    TtlEnds(l, p3, x.text, st, ttl);
    StrategyFirst(Text(l), p1, p2, p3, x.text, st);
  }

  lemma StrategyFirst(s: string, p: nat, q: nat, e: nat, id: string, st: Strategy)
    requires p <= q <= e <= |s| && NextToken(s, p) == (Some("STRATEGY"), q) &&
            NextToken(s, q) == (Some(StrategyName(st)), e)
    ensures CreateOptions(s, p, id, Documents.Lww, None) == CreateOptions(s, e, id, st, None)
  {
    hide NextToken, ParseStrategy, Upper;
    CapitalsAreUpper("STRATEGY");
    NamesAreLower(st);
    StrategyNameParses(st, StrategyName(st));
  }

  /** Every command that can be built has a line that parses back to it, however
    * its texts are spelled. */
  lemma RenderedParses(c: Command, raw: string, style: Style, words: Words, json: Json)
    requires Renderable(c, raw, style, json) && Fluent(words)
    ensures ParseLine(Text(Render(c, raw, style, words)), json) == Parsed(c)
  {
    hide ParseLine, Text, Means, Spellable, Spell, StrategyName, Trimmed, PrintInt, Print;
    forall t | t in Spelled(c) ensures style(t).text == t && GoodArg(style(t)) {
      assert Sound(style, t);
    }
    if c.id.Some? {
      assert c.id.value in Spelled(c);
    }
    match c.kind
    case Auth(p) => assert p in Spelled(c); OneArgLine(words(AuthVerb), AuthVerb, style(p), json);
    case Create(st, ttl) => CreateLine(words(CreateVerb), style(c.id.value), st, ttl, json);
    case Get(place) =>
      if place.Some? { assert place.value in Spelled(c); }
      PlaceLine(words(GetVerb), GetVerb, style(c.id.value), StyledPlace(place, style), json);
    case Set(path, v) =>
      assert path in Spelled(c);
      WriteLine(words(SetVerb), false, style(c.id.value), style(path), raw, v, json);
    case Delete(place) =>
      if place.Some? { assert place.value in Spelled(c); }
      PlaceLine(words(DelVerb), DelVerb, style(c.id.value), StyledPlace(place, style), json);
    case Subscribe(p, place) =>
      if place.Some? { assert place.value in Spelled(c); }
      PlaceLine(words(SubVerb), SubVerb, style(p), StyledPlace(place, style), json);
    case Unsubscribe(p) => OneArgLine(words(UnsubVerb), UnsubVerb, style(p), json);
    case Push(path, v) =>
      assert path in Spelled(c);
      WriteLine(words(PushVerb), true, style(c.id.value), style(path), raw, v, json);
    case Increment(path, delta) =>
      assert path in Spelled(c);
      IncrementLine(words(IncVerb), style(c.id.value), style(path), delta, json);
    case Presence(data) =>
      if data.Some? {
        PresenceLine(words(PresenceVerb), style(c.id.value), raw, json);
      } else {
        OneArgLine(words(PresenceVerb), PresenceVerb, style(c.id.value), json);
      }
    case Ping => LonelyLine(words(PingVerb), PingVerb, json);
    case Quit => LonelyLine(words(QuitVerb), QuitVerb, json);
    case Info => LonelyLine(words(InfoVerb), InfoVerb, json);
    case Keys(glob) =>
      if glob.Some? {
        assert glob.value in Spelled(c);
        OneArgLine(words(KeysVerb), KeysVerb, style(glob.value), json);
      } else {
        LonelyLine(words(KeysVerb), KeysVerb, json);
      }
    case Compact => OneArgLine(words(CompactVerb), CompactVerb, style(c.id.value), json);
    case Expire(ms) => ExpireLine(words(ExpireVerb), style(c.id.value), ms, json);
    case Ttl => OneArgLine(words(TtlVerb), TtlVerb, style(c.id.value), json);
    case Backup => LonelyLine(words(BackupVerb), BackupVerb, json);
    case Restore(_) => RestoreLine(words(RestoreVerb), raw, json);
  }

  // ---------- what may be left out ----------

  /** INC without an amount adds one. */
  lemma IncrementByOne(word: string, x: Spelling, path: Spelling, json: Json)
    requires Means(word, IncVerb) && GoodArg(x) && GoodArg(path)
    ensures ParseLine(Text(Line(word, [x, path], "")), json) == Parsed(Command(Increment(path.text, 1), Some(x.text)))
  {
    hide Means, AtArg, Readable, ParseLine, Text, NextToken, GoodArg;
    var l := Line(word, [x, path], "");
    var p0 := Start(l, IncVerb, json);
    var p1 := Arg(l, 0, p0);
    var p2 := Arg(l, 1, p1);
    NoMoreArgs(l, p2);
    ParseOfPrintInt(1);
    assert PrintInt(1) == "1";
  }

  /** CREATE without options makes an LWW document without a limit. */
  lemma CreatePlain(word: string, x: Spelling, json: Json)
    requires Means(word, CreateVerb) && GoodArg(x)
    ensures ParseLine(Text(Line(word, [x], "")), json) == Parsed(Command(Create(Documents.Lww, None), Some(x.text)))
  {
    hide Means, AtArg, Readable, ParseLine, Text, NextToken, GoodArg;
    var l := Line(word, [x], "");
    var p0 := Start(l, CreateVerb, json);
    var p1 := Arg(l, 0, p0);
    NoMoreArgs(l, p1);
  }

  /** GET and DEL take a path without the keyword, too. */
  lemma BarePlace(word: string, verb: Verb, x: Spelling, path: Spelling, json: Json)
    requires Means(word, verb) && (verb.GetVerb? || verb.DelVerb?) && GoodArg(x) && GoodArg(path)
    requires Upper(path.text) != "PATH"
    ensures ParseLine(Text(Line(word, [x, path], "")), json) ==
              Parsed(Command(if verb.GetVerb? then Get(Some(path.text)) else Delete(Some(path.text)), Some(x.text)))
  {
    hide Means, AtArg, Readable, ParseLine, Text, NextToken, GoodArg, Upper;
    var l := Line(word, [x, path], "");
    var p0 := Start(l, verb, json);
    var p1 := Arg(l, 0, p0);
    var p2 := Arg(l, 1, p1);
    NoMoreArgs(l, p2);
    assert GetOptions(Text(l), p2, x.text, Some(path.text)) == One(Get(Some(path.text)), x.text);
  }

  /** The arguments a command cannot do without. */
  function Needed(verb: Verb): nat {
    match verb
    case SetVerb => 2
    case PushVerb => 2
    case IncVerb => 2
    case ExpireVerb => 2
    case RestoreVerb => 1
    case PingVerb => 0
    case QuitVerb => 0
    case InfoVerb => 0
    case KeysVerb => 0
    case BackupVerb => 0
    case _ => 1
  }

  /** With fewer, or without the value of SET and PUSH, the line is refused as incomplete. */
  lemma MissingArguments(word: string, verb: Verb, args: seq<Spelling>, json: Json)
    requires Means(word, verb) && forall i :: 0 <= i < |args| ==> GoodArg(args[i])
    requires |args| < Needed(verb) || ((verb.SetVerb? || verb.PushVerb?) && |args| == 2)
    ensures ParseLine(Text(Line(word, args, "")), json) == Bad(MissingArgument)
  {
    hide Means, AtArg, Readable, ParseLine, Text, NextToken, RestFrom, GoodArg;
    var l := Line(word, args, "");
    var p0 := Start(l, verb, json);
    if args == [] {
      NoMoreArgs(l, p0);
      NothingLeft(l, p0);
    } else {
      var p1 := Arg(l, 0, p0);
      if |args| == 1 {
        NoMoreArgs(l, p1);
      } else {
        var p2 := Arg(l, 1, p1);
        NothingLeft(l, p2);
      }
    }
  }

  lemma NothingLeft(l: Line, pos: nat)
    requires AtArg(l, |l.args|, pos) && l.raw == ""
    ensures pos <= |Text(l)| && RestFrom(Text(l), pos).0 == None
  {
    assert Text(l)[pos..] == "";
  }

  // ---------- what is refused ----------

  /** An option that SUB or CREATE does not know. */
  lemma UnknownOption(word: string, verb: Verb, x: Spelling, opt: Spelling, more: seq<Spelling>, json: Json)
    requires Means(word, verb) && (verb.SubVerb? || verb.CreateVerb?)
    requires GoodArg(x) && GoodArg(opt) && forall i :: 0 <= i < |more| ==> GoodArg(more[i])
    requires verb.SubVerb? ==> Upper(opt.text) != "PATH"
    requires verb.CreateVerb? ==> Upper(opt.text) != "STRATEGY" && Upper(opt.text) != "TTL"
    ensures ParseLine(Text(Line(word, [x, opt] + more, "")), json) == Bad(InvalidArgument)
  {
    hide Means, AtArg, Readable, ParseLine, Text, NextToken, GoodArg, Upper;
    var l := Line(word, [x, opt] + more, "");
    var p0 := Start(l, verb, json);
    var p1 := Arg(l, 0, p0);
    var p2 := Arg(l, 1, p1);
  }

  /** A keyword of GET, DEL, SUB or CREATE without its value. */
  lemma MissingOptionValue(word: string, verb: Verb, x: Spelling, key: string, json: Json)
    requires Means(word, verb) && GoodArg(x)
    requires if verb.CreateVerb? then key == "STRATEGY" || key == "TTL"
             else key == "PATH" && (verb.GetVerb? || verb.DelVerb? || verb.SubVerb?)
    ensures ParseLine(Text(Line(word, [x, Keyword(key)], "")), json) == Bad(MissingArgument)
  {
    hide Means, AtArg, Readable, ParseLine, Text, NextToken, GoodArg, Upper;
    var l := Line(word, [x, Keyword(key)], "");
    KeywordsAreGood(key);
    CapitalsAreUpper(key);
    var p0 := Start(l, verb, json);
    var p1 := Arg(l, 0, p0);
    var p2 := Arg(l, 1, p1);
    NoMoreArgs(l, p2);
  }

  /** A strategy without such a name, or a limit that is no 64-bit number. */
  lemma BadOptionValue(word: string, x: Spelling, key: string, value: Spelling, more: seq<Spelling>, json: Json)
    requires Means(word, CreateVerb) && GoodArg(x) && GoodArg(value)
    requires forall i :: 0 <= i < |more| ==> GoodArg(more[i])
    requires (key == "STRATEGY" && ParseStrategy(value.text) == None) ||
             (key == "TTL" && ParseUnsigned(value.text) == None)
    ensures ParseLine(Text(Line(word, [x, Keyword(key), value] + more, "")), json) == Bad(InvalidArgument)
  {
    hide Means, AtArg, Readable, ParseLine, Text, NextToken, GoodArg, Upper, ParseStrategy, ParseBelow;
    var l := Line(word, [x, Keyword(key), value] + more, "");
    KeywordsAreGood(key);
    CapitalsAreUpper(key);
    var p0 := Start(l, CreateVerb, json);
    var p1 := Arg(l, 0, p0);
    var p2 := Arg(l, 1, p1);
    var p3 := Arg(l, 2, p2);
  }

  /** An amount or a time that is no 64-bit number. */
  lemma BadNumber(word: string, verb: Verb, args: seq<Spelling>, json: Json)
    requires Means(word, verb) && forall i :: 0 <= i < |args| ==> GoodArg(args[i])
    requires (verb.IncVerb? && |args| == 3 && ParseI64(args[2].text) == None) ||
             (verb.ExpireVerb? && |args| == 2 && ParseUnsigned(args[1].text) == None)
    ensures ParseLine(Text(Line(word, args, "")), json) == Bad(InvalidArgument)
  {
    hide Means, AtArg, Readable, ParseLine, Text, NextToken, GoodArg, ParseI64, ParseBelow;
    var l := Line(word, args, "");
    var p0 := Start(l, verb, json);
    var p1 := Arg(l, 0, p0);
    var p2 := Arg(l, 1, p1);
    if verb.IncVerb? {
      var p3 := Arg(l, 2, p2);
    }
  }

  /** A presence or a backup that is no JSON. */
  lemma BadJson(word: string, verb: Verb, x: Spelling, raw: string, json: Json)
    requires Means(word, verb) && (verb.PresenceVerb? || verb.RestoreVerb?)
    requires GoodArg(x) && raw != "" && Trimmed(raw) && json(raw) == None
    ensures ParseLine(Text(Line(word, if verb.PresenceVerb? then [x, Keyword("DATA")] else [], raw)), json)
         == Bad(InvalidJson)
  {
    hide Means, AtArg, Readable, ParseLine, Text, NextToken, RestFrom, GoodArg, Trimmed, Upper, Trim;
    var l := Line(word, if verb.PresenceVerb? then [x, Keyword("DATA")] else [], raw);
    KeywordsAreGood("DATA");
    CapitalsAreUpper("DATA");
    TrimOfTrimmed(raw);
    var p0 := Start(l, verb, json);
    if verb.PresenceVerb? {
      var p1 := Arg(l, 0, p0);
      var p2 := Arg(l, 1, p1);
      RawArg(l, p2);
    } else {
      RawArg(l, p0);
    }
  }

  /** PRESENCE takes its JSON without the keyword, too, if it does not begin with a
    * quote and its first space is not followed by another. */
  lemma BarePresence(word: string, x: Spelling, head: string, tail: string, json: Json)
    requires Means(word, PresenceVerb) && GoodArg(x)
    requires head != "" && Free(head, ' ') && head[0] != '"' && Upper(head) != "DATA"
    requires tail == "" || tail[0] != ' '
    requires var raw := if tail == "" then head else head + " " + tail; Trimmed(raw)
    ensures var raw := if tail == "" then head else head + " " + tail;
            ParseLine(Text(Line(word, [x], raw)), json) ==
              if json(raw).Some? then Parsed(Command(Presence(json(raw)), Some(x.text))) else Bad(InvalidJson)
  {
    hide Means, AtArg, Readable, ParseLine, Text, GoodArg, Upper, Trim, NextToken, RestFrom;
    var raw := if tail == "" then head else head + " " + tail;
    var l := Line(word, [x], raw);
    var p0 := Start(l, PresenceVerb, json);
    var p1 := Arg(l, 0, p0);
    HeadAndTail(l, p1, head, tail);
    TrimOfTrimmed(raw);
    TrimOfSpaced(raw);
    assert head + " " + tail == if tail == "" then raw + " " else raw;
  }

  lemma HeadAndTail(l: Line, pos: nat, head: string, tail: string)
    requires AtArg(l, |l.args|, pos) && l.raw == if tail == "" then head else head + " " + tail
    requires head != "" && Free(head, ' ') && head[0] != '"' && (tail == "" || tail[0] != ' ')
    ensures pos <= |Text(l)| && NextToken(Text(l), pos).0 == Some(head)
    ensures RestFrom(Text(l), NextToken(Text(l), pos).1).0 == if tail == "" then None else Some(tail)
  {
    hide NextToken, RestFrom, Text;
    assert l.args[|l.args|..] == [];
    var rest := if tail == "" then "" else " " + tail;
    assert "" + Tail(l) == Tail(l);
    assert Tail(l) == " " + head + rest;
    HeadAt(Text(l), pos, head, rest);
    var to := pos + 1 + |head|;
    if tail == "" {
      NothingLeftAt(Text(l), to);
    } else {
      RawAt(Text(l), to, tail);
    }
  }

  lemma HeadAt(s: string, pos: nat, head: string, rest: string)
    requires pos <= |s| && s[pos..] == " " + head + rest
    requires head != "" && Free(head, ' ') && head[0] != '"' && (rest == "" || rest[0] == ' ')
    ensures NextToken(s, pos) == (Some(head), pos + 1 + |head|)
    ensures pos + 1 + |head| <= |s| && s[pos + 1 + |head|..] == rest
  {
    hide NextToken;
    var x := Bare(head);
    assert Spell(x) == head;
    NextSpelled(s, pos, x, rest);
    assert s[pos + 1 + |head|..] == s[pos..][1 + |head|..] == rest;
  }

  lemma NothingLeftAt(s: string, pos: nat)
    requires pos == |s|
    ensures RestFrom(s, pos).0 == None
  {}

  lemma TrimOfSpaced(raw: string)
    requires raw != "" && Trimmed(raw)
    ensures Trim(raw + " ") == raw
  {
    hide TrimLeft;
    var s := raw + " ";
    TrimLeftKeeps(s);
    assert s[..|s| - 1] == raw && White(s[|s| - 1]);
    assert TrimRight(s) == TrimRight(raw) == raw;
  }

  lemma TrimLeftKeeps(s: string)
    requires s != "" && !White(s[0])
    ensures TrimLeft(s) == s
  {}

  /** A line without a word, or with a word that is no command's. */
  lemma NoCommand(line: string, json: Json)
    requires Trim(line) == "" || (Letters(Trim(line)) && VerbOf(Upper(Trim(line))) == None)
    ensures ParseLine(line, json) == Bad(InvalidCommand)
  {
    hide VerbOf, Trim;
    if Trim(line) != "" {
      var l := Line(Trim(line), [], "");
      CommandWord(l);
      assert Text(l) == Trim(line);
    }
  }
}
