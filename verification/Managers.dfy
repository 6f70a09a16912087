/** The document manager (crates/ussl-core/src/manager.rs) on values: expiry,
  * presence, backup and restore, over single calls and whole runs. */
module Managers {
  import opened Basics
  import opened Documents
  import Strategies
  import Values

  datatype Presence = Presence(client: string, data: Values.Value)

  datatype Manager = Manager(docs: map<string, Doc>, presence: map<string, seq<Presence>>)

  /** `DocumentId::new`. */
  predicate ValidId(id: string) {
    id != "" && |id| <= 512 && forall i :: 0 <= i < |id| ==> IdChar(id[i])
  }

  predicate IdChar(c: char) {
    'a' <= c <= 'z' || 'A' <= c <= 'Z' || '0' <= c <= '9' || c == ':' || c == '_' || c == '-'
  }

  // ---------- documents ----------

  function Create(m: Manager, id: string, strategy: Strategy, ttl: Option<U64>, now: U64): (Manager, Outcome<()>) {
    if id in m.docs then (m, Failed(Exists)) else
    (m.(docs := m.docs[id := NewDoc(id, strategy, ttl, now)]), Done(()))
  }

  function GetOrCreate(m: Manager, id: string, strategy: Strategy, now: U64): (r: Manager)
    ensures id in r.docs
  {
    if id in m.docs then m else m.(docs := m.docs[id := NewDoc(id, strategy, None, now)])
  }

  function Remove(m: Manager, id: string): (Manager, Outcome<()>) {
    if id in m.docs then (m.(docs := m.docs - {id}), Done(())) else (m, Failed(NotFound))
  }

  function SetExpire(m: Manager, id: string, ttl: Option<U64>): (Manager, Outcome<()>) {
    if id !in m.docs then (m, Failed(NotFound)) else
    var d := m.docs[id];
    (m.(docs := m.docs[id := d.(meta := d.meta.(ttl := ttl))]), Done(()))
  }

  function Ttl(m: Manager, id: string, now: U64): Outcome<Option<I64>> {
    if id in m.docs then Done(TtlRemaining(m.docs[id].meta, now)) else Failed(NotFound)
  }

  // ---------- presence ----------

  function Others(ps: seq<Presence>, client: string): seq<Presence> {
    if ps == [] then [] else (if ps[0].client == client then [] else [ps[0]]) + Others(ps[1..], client)
  }

  function PresenceAt(m: Manager, id: string): seq<Presence> {
    if id in m.presence then m.presence[id] else []
  }

  function SetPresence(m: Manager, client: string, id: string, data: Values.Value): Manager {
    m.(presence := m.presence[id := Others(PresenceAt(m, id), client) + [Presence(client, data)]])
  }

  function RemovePresence(m: Manager, client: string): Manager {
    m.(presence := map id | id in m.presence :: Others(m.presence[id], client))
  }

  // ---------- garbage collection ----------

  function Expired(m: Manager, now: U64): set<string> {
    set id | id in m.docs && IsExpired(m.docs[id].meta, now)
  }

  function Gc(m: Manager, now: U64): (Manager, nat) {
    (Manager(m.docs - Expired(m, now), m.presence - Expired(m, now)), |Expired(m, now)|)
  }

  /** The reply to TTL (crates/ussl-transport/src/handler.rs:477-503); None for an unknown document. */
  function TtlReply(m: Manager, id: string, now: U64): Option<int> {
    match Ttl(m, id, now)
    case Done(Some(remaining)) => if remaining < 0 then Some(-2) else Some(remaining)
    case Done(None) => Some(-1)
    case _ => None
  }

  /** The reply is -1 exactly for documents without a time to live. It is -2
    * exactly for those that collection would remove at that instant, exactly
    * while their expiry is less than 2^63 ms ahead; and then any other reply is
    * the time left. */
  lemma TtlReplyIs(m: Manager, id: string, now: U64)
    requires id in m.docs && now < TWO_63
    ensures TtlReply(m, id, now) == Some(-1) <==> m.docs[id].meta.ttl == None
    ensures var meta := m.docs[id].meta;
            meta.ttl.Some? ==>
              ((TtlReply(m, id, now) == Some(-2) <==> id in m.docs && id !in Gc(m, now).0.docs) <==>
                  ExpiresAt(meta) < now + TWO_63) &&
              (ExpiresAt(meta) < now + TWO_63 && !IsExpired(meta, now) ==>
                  TtlReply(m, id, now) == Some(ExpiresAt(meta) - now))
  {
    var meta := m.docs[id].meta;
    if meta.ttl.Some? {
      RemainingIsNegativeIffExpired(meta, now);
    }
  }

  /** EXPIRE counts from the document's creation, not from the command: TTL then
    * replies with the limit just set exactly when the document is created at
    * that very instant (and the limit fits an i64), and a document already older
    * than the limit is expired by the command itself. */
  lemma ExpireCountsFromCreation(m: Manager, id: string, ms: U64, now: U64)
    requires id in m.docs
    ensures var (e, born) := (SetExpire(m, id, Some(ms)).0, m.docs[id].meta.createdAt);
            (TtlReply(e, id, now) == Some(ms) <==> born == now && ms < TWO_63) &&
            (id !in Gc(e, now).0.docs <==> now > (born + ms) % TWO_64) &&
            (born + ms < TWO_64 ==> (id !in Gc(e, now).0.docs <==> now - born > ms))
  {
    var e, born := SetExpire(m, id, Some(ms)).0, m.docs[id].meta.createdAt;
    WrapOfShifted(ExpiresAt(e.docs[id].meta), born + ms);
    WrapOfDifference(born + ms, now);
    if born == now && ms < TWO_63 {
      WrapIsIdentityInRange(ms);
    } else if Wrap(born + ms - now) == ms {
      SameRemainder(born + ms - now, ms);
    }
  }

  /** A concrete case: the limit is 2^63 ms away, TTL says expired, and collection keeps the document. */
  lemma FarLimitLooksExpired(id: string)
    ensures var m := Manager(map[id := NewDoc(id, Lww, Some(TWO_63), 0)], map[]);
            TtlReply(m, id, 0) == Some(-2) && Gc(m, 0) == (m, 0)
  {
    var m := Manager(map[id := NewDoc(id, Lww, Some(TWO_63), 0)], map[]);
    TtlReplyIs(m, id, 0);
    assert Expired(m, 0) == {};
    assert m.docs - {} == m.docs && m.presence - {} == m.presence;
  }

  /** Collection removes exactly the expired documents, with their presence, and counts them. */
  lemma GcRemovesExactlyTheExpired(m: Manager, now: U64)
    ensures var (c, n) := Gc(m, now);
            n == |m.docs| - |c.docs| &&
            (forall id :: id in c.docs <==> id in m.docs && !IsExpired(m.docs[id].meta, now)) &&
            (forall id :: id in c.docs ==> c.docs[id] == m.docs[id]) &&
            (forall id :: PresenceAt(c, id) == if id in Expired(m, now) then [] else PresenceAt(m, id)) &&
            Gc(c, now) == (c, 0)
  {
    hide IsExpired;
    var c := Gc(m, now).0;
    SizeWithout(m.docs, Expired(m, now));
    assert Expired(c, now) == {};
    assert c.docs - {} == c.docs && c.presence - {} == c.presence;
  }

  lemma SizeWithout(docs: map<string, Doc>, ids: set<string>)
    requires ids <= docs.Keys
    ensures |docs - ids| == |docs| - |ids|
  {
    assert docs.Keys == (docs - ids).Keys + ids;
    assert |docs.Keys| == |docs| && |(docs - ids).Keys| == |docs - ids|;
  }

  // ---------- listing ----------

  /** The pattern of KEYS: "*", a prefix before "*", a suffix after it, or an id. */
  predicate Matches(id: string, pattern: string) {
    if pattern == "*" then true
    else if pattern != "" && pattern[|pattern| - 1] == '*' then pattern[..|pattern| - 1] <= id
    else if pattern != "" && pattern[0] == '*' then
      |pattern| - 1 <= |id| && id[|id| - (|pattern| - 1)..] == pattern[1..]
    else id == pattern
  }

  function Listed(m: Manager, pattern: Option<string>): set<string> {
    set id | id in m.docs && (pattern.None? || Matches(id, pattern.value))
  }

  // ---------- backup and restore ----------

  datatype Entry = Entry(id: string, strategy: string, state: Encoded, ttlRemaining: Option<I64>)

  function EntryOf(id: string, d: Doc, now: U64): Entry {
    Entry(id, Strategies.StrategyName(d.meta.strategy), State(d.ydoc), TtlRemaining(d.meta, now))
  }

  /** A backup lists every live document once, in some order. */
  ghost predicate IsBackup(m: Manager, entries: seq<Entry>, now: U64) {
    && (forall i :: 0 <= i < |entries| ==>
          var id := entries[i].id;
          id in m.docs && !IsExpired(m.docs[id].meta, now) && entries[i] == EntryOf(id, m.docs[id], now))
    && (forall id :: id in m.docs && !IsExpired(m.docs[id].meta, now) ==>
          exists i :: 0 <= i < |entries| && entries[i].id == id)
    && (forall i, j :: 0 <= i < j < |entries| ==> entries[i].id != entries[j].id)
  }

  /** The entries of a backup, in no order. */
  function Saved(m: Manager, now: U64): set<Entry> {
    set id | id in m.docs && !IsExpired(m.docs[id].meta, now) :: EntryOf(id, m.docs[id], now)
  }

  predicate DistinctIds(entries: seq<Entry>) {
    forall i, j :: 0 <= i < j < |entries| ==> entries[i].id != entries[j].id
  }

  function Elements(entries: seq<Entry>): set<Entry> {
    set e | e in entries
  }

  /** Backups are exactly the orders in which the saved entries can be listed. */
  lemma IsBackupIff(m: Manager, entries: seq<Entry>, now: U64)
    ensures IsBackup(m, entries, now) <==> Elements(entries) == Saved(m, now) && DistinctIds(entries)
  {
    hide EntryOf, IsExpired;
    assert forall id, d :: EntryOf(id, d, now).id == id by { EntriesAreNamed(now); }
    if IsBackup(m, entries, now) {
      forall e | e in Saved(m, now) ensures e in entries {
        var i :| 0 <= i < |entries| && entries[i].id == e.id;
        assert entries[i] == e;
      }
      forall e | e in entries ensures e in Saved(m, now) {
        var i :| 0 <= i < |entries| && entries[i] == e;
        assert e == EntryOf(e.id, m.docs[e.id], now);
      }
    } else if Elements(entries) == Saved(m, now) && DistinctIds(entries) {
      forall i | 0 <= i < |entries|
        ensures var id := entries[i].id;
                id in m.docs && !IsExpired(m.docs[id].meta, now) && entries[i] == EntryOf(id, m.docs[id], now) {
        assert entries[i] in Elements(entries);
      }
      forall id | id in m.docs && !IsExpired(m.docs[id].meta, now)
        ensures exists i :: 0 <= i < |entries| && entries[i].id == id {
        assert EntryOf(id, m.docs[id], now) in Elements(entries);
      }
      assert false;
    }
  }

  lemma EntriesAreNamed(now: U64)
    ensures forall id, d :: EntryOf(id, d, now).id == id
  {}

  /** The time to live a restored document gets: what remained, if positive. */
  function RestoredTtl(remaining: Option<I64>): Option<U64> {
    if remaining.Some? && remaining.value > 0 then Some(remaining.value) else None
  }

  function RestoreOne(e: Entry, now: U64): Outcome<Doc> {
    if !ValidId(e.id) then Failed(InvalidId) else
    match Strategies.ParseStrategy(e.strategy)
    case None => Failed(InvalidStrategy)
    case Some(strategy) =>
      match ApplyState(NewDoc(e.id, strategy, RestoredTtl(e.ttlRemaining), now), e.state, now)
      case (d, Done(_)) => Done(d)
      case (_, _) => Failed(RestoreError)
  }

  /** Entries are restored one after the other until one fails. */
  function Restore(m: Manager, entries: seq<Entry>, now: U64): (Manager, Outcome<nat>)
    decreases |entries|
  {
    if entries == [] then (m, Done(0)) else
    match RestoreOne(entries[0], now)
    case Done(d) =>
      (match Restore(m.(docs := m.docs[entries[0].id := d]), entries[1..], now)
       case (m', Done(n)) => (m', Done(n + 1))
       case (m', r) => (m', r))
    case Failed(e) => (m, Failed(e))
    case Hangs => (m, Hangs)
  }

  /** The number of entries before the first bad one. */
  function GoodEntries(entries: seq<Entry>, now: U64): (k: nat)
    ensures k <= |entries|
    ensures forall i :: 0 <= i < k ==> RestoreOne(entries[i], now).Done?
    ensures k < |entries| ==> RestoreOne(entries[k], now).Failed?
  {
    if entries == [] || !RestoreOne(entries[0], now).Done? then 0 else 1 + GoodEntries(entries[1..], now)
  }

  /** The last of the first `k` entries for an id. */
  function LastEntry(entries: seq<Entry>, k: nat, id: string): (r: Option<Entry>)
    requires k <= |entries|
    ensures r.Some? <==> exists i :: 0 <= i < k && entries[i].id == id
    ensures r.Some? ==>
              r.value.id == id &&
              exists i :: 0 <= i < k && entries[i] == r.value && forall j :: i < j < k ==> entries[j].id != id
  {
    if k == 0 then None
    else if entries[k - 1].id == id then Some(entries[k - 1])
    else LastEntry(entries, k - 1, id)
  }

  lemma {:induction false} LastEntryFromFront(entries: seq<Entry>, k: nat, id: string)
    requires 0 < k <= |entries|
    ensures LastEntry(entries, k, id) ==
              var later := LastEntry(entries[1..], k - 1, id);
              if later.Some? then later else if entries[0].id == id then Some(entries[0]) else None
    decreases k
  {
    if k > 1 {
      LastEntryFromFront(entries, k - 1, id);
    }
  }

  /** What restore leaves under an id when the first `k` entries took effect. */
  function RestoredAt(m: Manager, entries: seq<Entry>, k: nat, now: U64, id: string): Option<Doc>
    requires k <= GoodEntries(entries, now)
  {
    var e := LastEntry(entries, k, id);
    if e.Some? then (if RestoreOne(e.value, now).Done? then Some(RestoreOne(e.value, now).value) else None)
    else if id in m.docs then Some(m.docs[id]) else None
  }

  function DocAt(m: Manager, id: string): Option<Doc> {
    if id in m.docs then Some(m.docs[id]) else None
  }

  /** Restore is a fold: exactly the entries before the first bad one take
    * effect, the last one for an id wins, every other document and all presence
    * stay; it succeeds, with the number of entries, exactly when none is bad,
    * and otherwise reports the first bad entry's error. */
  lemma {:induction false} RestoreIsAFold(m: Manager, entries: seq<Entry>, now: U64)
    ensures var (r, outcome) := Restore(m, entries, now);
            var k := GoodEntries(entries, now);
            r.presence == m.presence &&
            outcome == (if k == |entries| then Done(k) else Failed(RestoreOne(entries[k], now).error))
    ensures forall id ::
              DocAt(Restore(m, entries, now).0, id) == RestoredAt(m, entries, GoodEntries(entries, now), now, id)
    decreases |entries|
  {
    hide RestoreOne, EntryOf;
    var k := GoodEntries(entries, now);
    if k > 0 {
      var m1 := m.(docs := m.docs[entries[0].id := RestoreOne(entries[0], now).value]);
      RestoreIsAFold(m1, entries[1..], now);
      forall id ensures DocAt(Restore(m, entries, now).0, id) == RestoredAt(m, entries, k, now, id) {
        LastEntryFromFront(entries, k, id);
        assert DocAt(Restore(m1, entries[1..], now).0, id) == RestoredAt(m1, entries[1..], k - 1, now, id);
      }
    }
  }

  lemma RestoreOneOf(id: string, d: Doc, taken: U64, now: U64)
    requires ValidId(id)
    ensures var r := RestoreOne(EntryOf(id, d, taken), now);
            r.Done? &&
            r.value.meta == Meta(id, d.meta.strategy, now, now, 2, RestoredTtl(TtlRemaining(d.meta, taken))) &&
            r.value.ydoc == d.ydoc && r.value.data == Values.Object(map[]) &&
            r.value.updates == 0 && r.value.compactions == 0
  {
    Strategies.NamesAreLower(d.meta.strategy);
    Strategies.StrategyNameParses(d.meta.strategy, Strategies.StrategyName(d.meta.strategy));
  }

  /** Time left, carried over to another instant, is the same time left. */
  lemma RemainingCarriesOver(m: Meta, now: U64, remaining: I64)
    requires m.createdAt == now && m.ttl == Some(remaining) && remaining > 0
    ensures TtlRemaining(m, now) == Some(remaining)
  {
    var sum := now + remaining;
    var e := ExpiresAt(m);
    assert e == sum || e == sum - TWO_64;
    WrapOfShifted(e, sum);
    WrapOfDifference(sum, now);
    WrapIsIdentityInRange(remaining);
  }

  lemma WrapOfShifted(a: int, b: int)
    requires a == b || a == b - TWO_64
    ensures Wrap(a) == Wrap(b)
  {
    if a != b {
      ModShift(b + TWO_63, -1);
    }
  }

  lemma WrapOfDifference(a: int, b: int)
    ensures Wrap(Wrap(a) - Wrap(b)) == Wrap(a - b)
  {
    var p, q := (a + TWO_63) / TWO_64, (b + TWO_63) / TWO_64;
    assert Wrap(a) == a - TWO_64 * p && Wrap(b) == b - TWO_64 * q;
    ModShift(a - b + TWO_63, q - p);
  }

  /** What survives a backup taken at `taken` and restored at `now`. */
  predicate Survives(d: Doc, e: Doc, taken: U64, now: U64) {
    && e.meta.strategy == d.meta.strategy
    && e.ydoc == d.ydoc
    && e.data == Values.Object(map[])
    && (d.meta.ttl == None ==> e.meta.ttl == None)
    && (d.meta.ttl.Some? && TtlRemaining(d.meta, taken).value > 0 ==>
        TtlRemaining(e.meta, now) == TtlRemaining(d.meta, taken))
    && (d.meta.ttl.Some? && TtlRemaining(d.meta, taken).value <= 0 ==> e.meta.ttl == None)
  }

  /** Backing up at one instant and restoring at another, into any manager:
    * every live document comes back with its strategy and text; its value is
    * emptied; the time left is carried over if it was positive, and a time left
    * of zero becomes no limit at all. Other documents and presence stay. */
  lemma BackupThenRestore(m: Manager, entries: seq<Entry>, taken: U64, target: Manager, now: U64)
    requires IsBackup(m, entries, taken) && forall id :: id in m.docs ==> ValidId(id)
    ensures var (r, outcome) := Restore(target, entries, now);
            outcome == Done(|entries|) && r.presence == target.presence &&
            (forall id :: id in m.docs && !IsExpired(m.docs[id].meta, taken) ==>
               id in r.docs && Survives(m.docs[id], r.docs[id], taken, now)) &&
            (forall id :: id !in m.docs || IsExpired(m.docs[id].meta, taken) ==> DocAt(r, id) == DocAt(target, id))
  {
    hide RestoreOne, TtlRemaining;
    RestoreIsAFold(target, entries, now);
    forall i | 0 <= i < |entries| ensures RestoreOne(entries[i], now).Done? {
      RestoreOneOf(entries[i].id, m.docs[entries[i].id], taken, now);
    }
    var r := Restore(target, entries, now).0;
    forall id
      ensures if id in m.docs && !IsExpired(m.docs[id].meta, taken)
              then id in r.docs && Survives(m.docs[id], r.docs[id], taken, now)
                      else DocAt(r, id) == DocAt(target, id) {
      assert DocAt(r, id) == RestoredAt(target, entries, |entries|, now, id);
      if id in m.docs && !IsExpired(m.docs[id].meta, taken) {
        var i :| 0 <= i < |entries| && entries[i].id == id;
        assert LastEntry(entries, |entries|, id) == Some(entries[i]);
        RestoreOneOf(id, m.docs[id], taken, now);
        SurvivesRestore(id, m.docs[id], taken, now);
      } else {
        assert LastEntry(entries, |entries|, id) == None;
      }
    }
  }

  lemma SurvivesRestore(id: string, d: Doc, taken: U64, now: U64)
    requires ValidId(id)
    ensures RestoreOne(EntryOf(id, d, taken), now).Done? &&
            Survives(d, RestoreOne(EntryOf(id, d, taken), now).value, taken, now)
  {
    RestoreOneOf(id, d, taken, now);
    var e := RestoreOne(EntryOf(id, d, taken), now).value;
    if d.meta.ttl.Some? && TtlRemaining(d.meta, taken).value > 0 {
      RemainingCarriesOver(e.meta, now, TtlRemaining(d.meta, taken).value);
    }
  }

  /** A whole document reads the same after backup and restore exactly when it is
    * a text document or its value was the empty object: values are not backed up. */
  lemma WholeReadSurvivesIff(id: string, d: Doc, taken: U64, now: U64)
    requires ValidId(id)
    ensures var e := RestoreOne(EntryOf(id, d, taken), now);
            e.Done? &&
            (Fetch(e.value, None) == Fetch(d, None) <==> d.meta.strategy == CrdtText || d.data == Values.Object(map[]))
  {
    RestoreOneOf(id, d, taken, now);
  }

  /** The limit survives exactly when there was none or some time was left. */
  lemma LimitSurvivesIff(id: string, d: Doc, taken: U64, now: U64)
    requires ValidId(id)
    ensures var e := RestoreOne(EntryOf(id, d, taken), now);
            e.Done? && (TtlRemaining(e.value.meta, now) == TtlRemaining(d.meta, taken)
                        <==> d.meta.ttl == None || TtlRemaining(d.meta, taken).value > 0)
  {
    RestoreOneOf(id, d, taken, now);
    SurvivesRestore(id, d, taken, now);
  }

  // ---------- runs ----------

  datatype Call =
    | CreateCall(id: string, strategy: Strategy, ttl: Option<U64>)
    | RemoveCall(id: string)
    | ExpireCall(id: string, ttl: Option<U64>)
    | PresenceCall(client: string, id: string, data: Values.Value)
    | LeaveCall(client: string)
    | GcCall
    | RestoreCall(entries: seq<Entry>)
    | EditCall(id: string, d: Doc)

  datatype Timed = Timed(call: Call, now: U64)

  /** EditCall stands for any change of one document's own contents. */
  function Apply(m: Manager, t: Timed): Manager {
    match t.call
    case CreateCall(id, strategy, ttl) => Create(m, id, strategy, ttl, t.now).0
    case RemoveCall(id) => Remove(m, id).0
    case ExpireCall(id, ttl) => SetExpire(m, id, ttl).0
    case PresenceCall(client, id, data) => SetPresence(m, client, id, data)
    case LeaveCall(client) => RemovePresence(m, client)
    case GcCall => Gc(m, t.now).0
    case RestoreCall(entries) => Restore(m, entries, t.now).0
    case EditCall(id, d) => if id in m.docs then m.(docs := m.docs[id := d]) else m
  }

  function Run(m: Manager, ts: seq<Timed>): Manager {
    if ts == [] then m else Apply(Run(m, Front(ts)), Last(ts))
  }

  /** A client's presence on a document: what it last set there, unless it left
    * or the document was collected since. */
  function Latest(m: Manager, ts: seq<Timed>, client: string, id: string): Option<Values.Value> {
    if ts == [] then None else
    var before := Latest(m, Front(ts), client, id);
    match Last(ts).call
    case PresenceCall(c, i, data) => if c == client && i == id then Some(data) else before
    case LeaveCall(c) => if c == client then None else before
    case GcCall => if id in Expired(Run(m, Front(ts)), Last(ts).now) then None else before
    case _ => before
  }

  /** The entries of one client. */
  function EntriesOf(ps: seq<Presence>, client: string): seq<Presence> {
    if ps == [] then [] else (if ps[0].client == client then [ps[0]] else []) + EntriesOf(ps[1..], client)
  }

  lemma {:induction false} EntriesOfOthers(ps: seq<Presence>, gone: string, client: string)
    ensures EntriesOf(Others(ps, gone), client) == if client == gone then [] else EntriesOf(ps, client)
  {
    if ps != [] {
      EntriesOfOthers(ps[1..], gone, client);
      EntriesAppend(if ps[0].client == gone then [] else [ps[0]], Others(ps[1..], gone), client);
    }
  }

  lemma {:induction false} EntriesAppend(a: seq<Presence>, b: seq<Presence>, client: string)
    ensures EntriesOf(a + b, client) == EntriesOf(a, client) + EntriesOf(b, client)
  {
    if a == [] {
      assert a + b == b;
    } else {
      EntriesAppend(a[1..], b, client);
      assert (a + b)[1..] == a[1..] + b && (a + b)[0] == a[0];
      var first := if a[0].client == client then [a[0]] else [];
      assert first + (EntriesOf(a[1..], client) + EntriesOf(b, client)) ==
          first + EntriesOf(a[1..], client) + EntriesOf(b, client);
    }
  }

  lemma PresenceStep(m: Manager, t: Timed, client: string, id: string)
    ensures EntriesOf(PresenceAt(Apply(m, t), id), client) ==
              match t.call
              case PresenceCall(c, i, _) =>
                if c == client && i == id then [Presence(client, t.call.data)] else EntriesOf(PresenceAt(m, id), client)
              case LeaveCall(c) => if c == client then [] else EntriesOf(PresenceAt(m, id), client)
              case GcCall => if id in Expired(m, t.now) then [] else EntriesOf(PresenceAt(m, id), client)
              case _ => EntriesOf(PresenceAt(m, id), client)
  {
    hide Restore, Create, Remove, SetExpire, IsExpired;
    match t.call
    case PresenceCall(c, i, data) =>
      if i == id {
        EntriesAppend(Others(PresenceAt(m, id), c), [Presence(c, data)], client);
        EntriesOfOthers(PresenceAt(m, id), c, client);
      }
    case LeaveCall(c) => EntriesOfOthers(PresenceAt(m, id), c, client);
    case RestoreCall(entries) => RestoreIsAFold(m, entries, t.now);
    case CreateCall(i, st, ttl) => CreateKeepsPresence(m, i, st, ttl, t.now);
    case RemoveCall(i) => RemoveKeepsPresence(m, i);
    case ExpireCall(i, ttl) => ExpireKeepsPresence(m, i, ttl);
    case _ =>
  }

  /** In every run from a manager without presence, each client has at most one
    * entry on each document, and it is the one it set last. */
  lemma {:induction false} PresenceIsTheLatest(m: Manager, ts: seq<Timed>, client: string, id: string)
    requires m.presence == map[]
    ensures EntriesOf(PresenceAt(Run(m, ts), id), client) ==
              match Latest(m, ts, client, id)
              case None => []
              case Some(data) => [Presence(client, data)]
    decreases |ts|
  {
    hide Apply, Expired;
    if ts != [] {
      PresenceIsTheLatest(m, Front(ts), client, id);
      PresenceStep(Run(m, Front(ts)), Last(ts), client, id);
    }
  }

  lemma CreateKeepsPresence(m: Manager, id: string, strategy: Strategy, ttl: Option<U64>, now: U64)
    ensures Create(m, id, strategy, ttl, now).0.presence == m.presence
  {}

  lemma RemoveKeepsPresence(m: Manager, id: string)
    ensures Remove(m, id).0.presence == m.presence
  {}

  lemma ExpireKeepsPresence(m: Manager, id: string, ttl: Option<U64>)
    ensures SetExpire(m, id, ttl).0.presence == m.presence
  {}
}
