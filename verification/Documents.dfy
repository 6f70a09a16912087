/** One document (crates/ussl-core/src/document.rs): metadata, the text CRDT as
  * content plus history, the LWW value, and the counters that drive compaction. */
module Documents {
  import opened Basics
  import opened Values
  import PathEngine

  datatype Strategy = Lww | CrdtCounter | CrdtSet | CrdtMap | CrdtText

  /** A Yrs text: what it reads as, and the edits it still remembers. */
  datatype YDoc = YDoc(content: string, history: seq<string>)

  datatype Meta = Meta(id: string, strategy: Strategy, createdAt: U64, updatedAt: U64, version: nat, ttl: Option<U64>)

  datatype Doc = Doc(meta: Meta, ydoc: YDoc, data: Value, updates: nat, compactions: nat)

  datatype Error = InvalidPath | Crdt | NotFound | Exists | InvalidId | InvalidStrategy | RestoreError

  /** Hangs: the call never returns (an unclosed '[' in a path). */
  datatype Outcome<+T> = Done(value: T) | Failed(error: Error) | Hangs

  const COMPACTION_THRESHOLD: nat := 1000
  const COMPACTION_SIZE_THRESHOLD: nat := 1024 * 1024

  function NewDoc(id: string, strategy: Strategy, ttl: Option<U64>, now: U64): Doc {
    Doc(Meta(id, strategy, now, now, 1, ttl), YDoc("", []), Object(map[]), 0, 0)
  }

  // ---------- time to live ----------

  /** `created_at + ttl` in u64 arithmetic. */
  function ExpiresAt(m: Meta): U64
    requires m.ttl.Some?
  {
    (m.createdAt + m.ttl.value) % TWO_64
  }

  predicate IsExpired(m: Meta, now: U64) {
    m.ttl.Some? && now > ExpiresAt(m)
  }

  /** `expires_at as i64 - now as i64`. */
  function TtlRemaining(m: Meta, now: U64): Option<I64> {
    if m.ttl.None? then None else Some(Wrap(Wrap(ExpiresAt(m)) - Wrap(now)))
  }

  /** The sign of the remaining time says whether the document has expired,
    * exactly while the expiry is less than 2^63 ms ahead (for clocks in i64 range). */
  lemma RemainingIsNegativeIffExpired(m: Meta, now: U64)
    requires m.ttl.Some? && now < TWO_63
    ensures (TtlRemaining(m, now).value < 0 <==> IsExpired(m, now)) <==> ExpiresAt(m) < now + TWO_63
    ensures ExpiresAt(m) < now + TWO_63 ==> TtlRemaining(m, now) == Some(ExpiresAt(m) - now)
  {
    var e := ExpiresAt(m);
    WrapIsIdentityInRange(now);
    if e < TWO_63 {
      WrapIsIdentityInRange(e);
      WrapIsIdentityInRange(e - now);
    } else {
      assert Wrap(e) == e - TWO_64;
      if e < now + TWO_63 {
        assert Wrap(e - TWO_64 - now) == e - now;
      } else {
        assert Wrap(e - TWO_64 - now) == e - TWO_64 - now;
      }
    }
  }

  // ---------- operations ----------

  /** A successful change: one version up, stamped with the time. */
  function Touched(d: Doc, now: U64): Doc {
    d.(meta := d.meta.(version := d.meta.version + 1, updatedAt := now))
  }

  function WriteData(d: Doc, path: string, x: Value, now: U64): (Doc, Outcome<()>) {
    match PathEngine.Write(d.data, path, x)
    case None => (d, Hangs)
    case Some(data) => (Touched(d.(data := data), now), Done(()))
  }

  function Set(d: Doc, path: string, x: Value, now: U64): (Doc, Outcome<()>) {
    if d.meta.strategy != CrdtText then WriteData(d, path, x, now) else
    match x
    case Str(text) =>
      (Touched(d.(ydoc := YDoc(text, d.ydoc.history + [text]), updates := d.updates + 1), now), Done(()))
    case _ => (d, Failed(Crdt))
  }

  /** Deleting a path writes Null; deleting without a path empties the object. */
  function Delete(d: Doc, path: Option<string>, now: U64): (Doc, Outcome<()>) {
    match path
    case Some(p) => WriteData(d, p, Null, now)
    case None => (Touched(d.(data := Object(map[])), now), Done(()))
  }

  function Push(d: Doc, path: string, x: Value, now: U64): (Doc, Outcome<()>) {
    match PathEngine.Read(d.data, path)
    case Hangs => (d, Outcome.Hangs)
    case Found(Array(items)) => WriteData(d, path, Array(items + [x]), now)
    case Found(_) => (d, Failed(InvalidPath))
    case Missing =>
      match PathEngine.Write(d.data, path, Array([]))
      case None => (d, Outcome.Hangs)
      case Some(data) =>
        match PathEngine.Read(data, path)
        case Found(Array(items)) => WriteData(d.(data := data), path, Array(items + [x]), now)
        case _ => (Touched(d.(data := data), now), Done(()))
  }

  function CounterAt(v: Value, path: string): I64 {
    match PathEngine.Read(v, path)
    case Found(w) => IntegerOf(Some(w))
    case _ => 0
  }

  function Increment(d: Doc, path: string, delta: I64, now: U64): (Doc, Outcome<I64>) {
    if PathEngine.Read(d.data, path).Hangs? then (d, Hangs) else
    var n := Wrap(CounterAt(d.data, path) + delta);
    match WriteData(d, path, Num(Integer(n)), now)
    case (d', Done(_)) => (d', Done(n))
    case (d', _) => (d', Hangs)
  }

  /** `get`: text documents ignore the path, counters and sets too. */
  function Fetch(d: Doc, path: Option<string>): Outcome<Value> {
    match d.meta.strategy
    case CrdtText => Done(Str(d.ydoc.content))
    case CrdtCounter => Done(d.data)
    case CrdtSet => Done(d.data)
    case _ =>
      match path
      case None => Done(d.data)
      case Some(p) =>
        match PathEngine.Read(d.data, p)
        case Found(v) => Done(v)
        case Missing => Failed(InvalidPath)
        case Hangs => Outcome.Hangs
  }

  /** The size of an encoded Yrs state is the library's business. */
  type Sizes = YDoc -> nat

  predicate ShouldCompact(d: Doc, size: Sizes) {
    d.updates >= COMPACTION_THRESHOLD || (d.updates > 100 && size(d.ydoc) >= COMPACTION_SIZE_THRESHOLD)
  }

  function CompactedText(d: Doc): YDoc {
    if d.meta.strategy == CrdtText then YDoc(d.ydoc.content, [d.ydoc.content]) else d.ydoc
  }

  function Compact(d: Doc, size: Sizes): (Doc, nat) {
    var d' := d.(ydoc := CompactedText(d), updates := 0, compactions := d.compactions + 1);
    (d', if size(d.ydoc) > size(d'.ydoc) then size(d.ydoc) - size(d'.ydoc) else 0)
  }

  /** Encoded Yrs state: empty bytes, bytes that do not decode, or a document's state. */
  datatype Encoded = Empty | Garbage | State(ydoc: YDoc)

  /** `apply_state`: empty bytes change nothing, a state is merged and counts as a change. */
  function ApplyState(d: Doc, state: Encoded, now: U64): (Doc, Outcome<()>) {
    match state
    case Empty => (d, Done(()))
    case Garbage => (d, Failed(RestoreError))
    case State(ydoc) => (Touched(d.(ydoc := ydoc), now), Done(()))
  }

  /** A document object. Its methods are the source's; each is specified by the
    * function of the same name on the document's value. */
  class Document {
    var meta: Meta
    var ydoc: YDoc
    var data: Value
    var updates: nat
    var compactions: nat

    function Abs(): Doc
      reads this
    {
      Doc(meta, ydoc, data, updates, compactions)
    }

    constructor (id: string, strategy: Strategy, ttl: Option<U64>, now: U64)
      ensures Abs() == NewDoc(id, strategy, ttl, now)
    {
      meta := Meta(id, strategy, now, now, 1, ttl);
      ydoc := YDoc("", []);
      data := Object(map[]);
      updates, compactions := 0, 0;
    }

    method UpdateVersion(now: U64)
      modifies this`meta
      ensures Abs() == Touched(old(Abs()), now)
    {
      meta := meta.(version := meta.version + 1, updatedAt := now);
    }

    method SetData(path: string, x: Value, now: U64) returns (r: Outcome<()>)
      modifies this`meta, this`data
      ensures (Abs(), r) == WriteData(old(Abs()), path, x, now)
    {
      var written := PathEngine.Write(data, path, x);
      if written.None? {
        return Hangs;
      }
      data := written.value;
      UpdateVersion(now);
      r := Done(());
    }

    method SetValue(path: string, x: Value, now: U64) returns (r: Outcome<()>)
      modifies this
      ensures (Abs(), r) == Set(old(Abs()), path, x, now)
    {
      if meta.strategy != CrdtText {
        r := SetData(path, x, now);
      } else if x.Str? {
        ydoc := YDoc(x.text, ydoc.history + [x.text]);
        updates := updates + 1;
        UpdateVersion(now);
        r := Done(());
      } else {
        r := Failed(Crdt);
      }
    }

    method DeleteValue(path: Option<string>, now: U64) returns (r: Outcome<()>)
      modifies this
      ensures (Abs(), r) == Delete(old(Abs()), path, now)
    {
      if path.Some? {
        r := SetData(path.value, Null, now);
      } else {
        data := Object(map[]);
        UpdateVersion(now);
        r := Done(());
      }
    }

    method PushValue(path: string, x: Value, now: U64) returns (r: Outcome<()>)
      modifies this
      ensures (Abs(), r) == Push(old(Abs()), path, x, now)
    {
      var at := PathEngine.GetPath(data, path);
      if at.Hangs? {
        return Hangs;
      } else if at.Missing? {
        var made := PathEngine.Write(data, path, Array([]));
        if made.None? {
          return Hangs;
        }
        data := made.value;
      } else if !at.v.Array? {
        return Failed(InvalidPath);
      }
      at := PathEngine.GetPath(data, path);
      if at.Found? && at.v.Array? {
        r := SetData(path, Array(at.v.items + [x]), now);
      } else {
        UpdateVersion(now);
        r := Done(());
      }
    }

    method IncrementBy(path: string, delta: I64, now: U64) returns (r: Outcome<I64>)
      modifies this
      ensures (Abs(), r) == Increment(old(Abs()), path, delta, now)
    {
      var at := PathEngine.GetPath(data, path);
      if at.Hangs? {
        return Hangs;
      }
      var current := if at.Found? then IntegerOf(Some(at.v)) else 0;
      var n := Wrap(current + delta);
      var done := SetData(path, Num(Integer(n)), now);
      r := if done.Done? then Done(n) else Hangs;
    }

    method CompactHistory(size: Sizes) returns (saved: nat)
      modifies this
      ensures (Abs(), saved) == Compact(old(Abs()), size)
    {
      var oldSize := size(ydoc);
      ydoc := CompactedText(Abs());
      updates := 0;
      compactions := compactions + 1;
      var newSize := size(ydoc);
      saved := if oldSize > newSize then oldSize - newSize else 0;
    }

    method MaybeAutoCompact(size: Sizes)
      modifies this
      ensures Abs() == if ShouldCompact(old(Abs()), size) then Compact(old(Abs()), size).0 else old(Abs())
    {
      if ShouldCompact(Abs(), size) {
        var _ := CompactHistory(size);
      }
    }

    /** Only for a fresh document, where merging a state is adopting it. */
    method ApplyEncoded(state: Encoded, now: U64) returns (r: Outcome<()>)
      modifies this
      ensures (Abs(), r) == ApplyState(old(Abs()), state, now)
    {
      match state {
        case Empty =>
          r := Done(());
        case Garbage =>
          r := Failed(RestoreError);
        case State(y) =>
          ydoc := y;
          UpdateVersion(now);
          r := Done(());
      }
    }

    method SetTtl(ttl: Option<U64>)
      modifies this`meta
      ensures Abs() == old(Abs()).(meta := old(meta).(ttl := ttl))
    {
      meta := meta.(ttl := ttl);
    }
  }
}
