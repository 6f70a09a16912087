/** Whole runs of commands on one document, as the connection handler drives it
  * (crates/ussl-transport/src/handler.rs): counters and lists through the path
  * engine, and compaction. */
module DocumentRuns {
  import opened Basics
  import opened Values
  import opened PathLaws
  import opened Documents
  import PathParser
  import PathEngine

  datatype Command =
    | SetCmd(path: string, value: Value)
    | DelCmd(place: Option<string>)
    | PushCmd(path: string, value: Value)
    | IncCmd(path: string, delta: I64)
    | CompactCmd
    | ExpireCmd(ttl: Option<U64>)

  datatype Reply = Accepted | Count(n: int) | Refused(error: Error) | NoReply

  datatype Timed = Timed(cmd: Command, now: U64)

  function AutoCompacted(d: Doc, size: Sizes): Doc {
    if ShouldCompact(d, size) then Compact(d, size).0 else d
  }

  /** A set or a push: automatic compaction follows success. */
  function Settle(r: (Doc, Outcome<()>), size: Sizes): (Doc, Reply) {
    match r
    case (d, Done(_)) => (AutoCompacted(d, size), Accepted)
    case (d, Failed(e)) => (d, Refused(e))
    case (d, Hangs) => (d, NoReply)
  }

  function Serve(d: Doc, c: Timed, size: Sizes): (Doc, Reply) {
    match c.cmd
    case SetCmd(path, x) => Settle(Set(d, path, x, c.now), size)
    case PushCmd(path, x) => Settle(Push(d, path, x, c.now), size)
    case DelCmd(place) =>
      (match Delete(d, place, c.now)
       case (d', Done(_)) => (d', Accepted)
       case (d', Failed(e)) => (d', Refused(e))
       case (d', Hangs) => (d', NoReply))
    case IncCmd(path, delta) =>
      (match Increment(d, path, delta, c.now)
       case (d', Done(n)) => (AutoCompacted(d', size), Count(n))
       case (d', Failed(e)) => (d', Refused(e))
       case (d', Hangs) => (d', NoReply))
    case CompactCmd => (Compact(d, size).0, Count(Compact(d, size).1))
    case ExpireCmd(ttl) => (d.(meta := d.meta.(ttl := ttl)), Accepted)
  }

  /** A run: the document and the replies after each command in turn. */
  function Run(d: Doc, cs: seq<Timed>, size: Sizes): (r: (Doc, seq<Reply>))
    ensures |r.1| == |cs|
  {
    if cs == [] then (d, []) else
    var before := Run(d, Front(cs), size);
    var after := Serve(before.0, Last(cs), size);
    (after.0, before.1 + [after.1])
  }

  // ---------- writes at a path and elsewhere ----------

  /** The text names the place `p`. */
  predicate At(path: string, p: Segments) {
    PathEngine.Names(path) && PathParser.Parse(path) == p
  }

  /** A write at this text cannot touch `p`: it names no place, or a diverging one. */
  ghost predicate Elsewhere(path: string, p: Segments) {
    !PathEngine.Names(path) || Diverge(PathParser.Parse(path), p)
  }

  lemma WriteAt(v: Value, path: string, x: Value, p: Segments)
    requires At(path, p)
    ensures PathEngine.Write(v, path, x) == Some(Put(v, p, x))
    ensures Get(Put(v, p, x), p) == Some(x)
  {
    PathEngine.WriteIs(v, path, x);
    GetPut(v, p, x);
  }

  lemma ReadAt(v: Value, path: string, p: Segments)
    requires At(path, p)
    ensures PathEngine.Read(v, path) ==
              match Get(v, p)
              case None => PathEngine.Missing
              case Some(w) => PathEngine.Found(w)
  {
    PathEngine.ReadIs(v, path);
  }

  /** What `p` resolves to may only change from nothing to a padding Null. */
  predicate Undisturbed(v: Value, w: Value, p: Segments) {
    Get(w, p) == Get(v, p) || (Get(v, p) == None && Get(w, p) == Some(Null))
  }

  lemma WriteElsewhere(v: Value, path: string, x: Value, p: Segments)
    requires Elsewhere(path, p) && PathEngine.Write(v, path, x).Some?
    ensures Undisturbed(v, PathEngine.Write(v, path, x).value, p)
  {
    if PathEngine.Names(path) {
      PathEngine.WriteIs(v, path, x);
      DivergentPathsKeepTheirValues(v, PathParser.Parse(path), p, x);
    }
  }

  lemma PushElsewhere(d: Doc, path: string, x: Value, now: U64, p: Segments)
    requires Elsewhere(path, p)
    ensures Undisturbed(d.data, Push(d, path, x, now).0.data, p)
  {
    match PathEngine.Read(d.data, path)
    case Found(Array(items)) =>
      if PathEngine.Write(d.data, path, Array(items + [x])).Some? {
        WriteElsewhere(d.data, path, Array(items + [x]), p);
      }
    case Missing =>
      var made := PathEngine.Write(d.data, path, Array([]));
      if made.Some? {
        WriteElsewhere(d.data, path, Array([]), p);
        match PathEngine.Read(made.value, path)
        case Found(Array(items)) =>
          if PathEngine.Write(made.value, path, Array(items + [x])).Some? {
            WriteElsewhere(made.value, path, Array(items + [x]), p);
          }
        case _ =>
      }
    case _ =>
  }

  /** Commands that do not write at `p`. */
  ghost predicate Spares(c: Command, p: Segments) {
    match c
    case SetCmd(path, _) => Elsewhere(path, p)
    case PushCmd(path, _) => Elsewhere(path, p)
    case IncCmd(path, _) => Elsewhere(path, p)
    case DelCmd(Some(path)) => Elsewhere(path, p)
    case DelCmd(None) => false
    case _ => true
  }

  lemma SparingKeeps(d: Doc, c: Timed, size: Sizes, p: Segments)
    requires Spares(c.cmd, p)
    ensures Undisturbed(d.data, Serve(d, c, size).0.data, p)
  {
    hide PathEngine.Read, PathEngine.Write, Elsewhere;
    match c.cmd
    case SetCmd(path, x) => if PathEngine.Write(d.data, path, x).Some? { WriteElsewhere(d.data, path, x, p); }
    case PushCmd(path, x) => PushElsewhere(d, path, x, c.now, p);
    case DelCmd(Some(path)) => if PathEngine.Write(d.data, path, Null).Some? { WriteElsewhere(d.data, path, Null, p); }
    case IncCmd(path, delta) =>
      var x := Num(Integer(Wrap(CounterAt(d.data, path) + delta)));
      if PathEngine.Write(d.data, path, x).Some? { WriteElsewhere(d.data, path, x, p); }
    case _ =>
  }

  // ---------- counters ----------

  function Amount(c: Command, p: Segments): int {
    if c.IncCmd? && At(c.path, p) then c.delta else 0
  }

  function Total(cs: seq<Timed>, p: Segments): int {
    if cs == [] then 0 else Total(Front(cs), p) + Amount(Last(cs).cmd, p)
  }

  /** The total of the commands up to and including the `i`-th. */
  function TotalThrough(cs: seq<Timed>, i: nat, p: Segments): int
    requires i < |cs|
  {
    Total(cs[..i + 1], p)
  }

  ghost predicate CounterRun(cs: seq<Timed>, p: Segments) {
    forall i :: 0 <= i < |cs| ==> Spares(cs[i].cmd, p) || (cs[i].cmd.IncCmd? && At(cs[i].cmd.path, p))
  }

  lemma IncrementAt(d: Doc, path: string, delta: I64, now: U64, p: Segments)
    requires At(path, p)
    ensures var n := Wrap(IntegerOf(Get(d.data, p)) + delta);
            Increment(d, path, delta, now) == (Touched(d.(data := Put(d.data, p, Num(Integer(n)))), now), Done(n))
  {
    ReadAt(d.data, path, p);
    WriteAt(d.data, path, Num(Integer(Wrap(IntegerOf(Get(d.data, p)) + delta))), p);
  }

  lemma CounterStep(d: Doc, c: Timed, size: Sizes, p: Segments)
    requires Spares(c.cmd, p) || (c.cmd.IncCmd? && At(c.cmd.path, p))
    ensures IntegerOf(Get(Serve(d, c, size).0.data, p)) == Wrap(IntegerOf(Get(d.data, p)) + Amount(c.cmd, p))
    ensures c.cmd.IncCmd? && At(c.cmd.path, p) ==>
              Serve(d, c, size).1 == Count(Wrap(IntegerOf(Get(d.data, p)) + Amount(c.cmd, p)))
  {
    hide PathEngine.Read, PathEngine.Write, PathEngine.Names, Diverge, Put;
    var n := IntegerOf(Get(d.data, p));
    if c.cmd.IncCmd? && At(c.cmd.path, p) {
      IncrementAt(d, c.cmd.path, c.cmd.delta, c.now, p);
      GetPut(d.data, p, Num(Integer(Wrap(n + c.cmd.delta))));
    } else {
      SparingKeeps(d, c, size, p);
      WrapIsIdentityInRange(n);
    }
  }

  /** In every run of increments at `p` among writes elsewhere, the value at `p`
    * is the initial integer (0 if there is none) plus the sum of the deltas,
    * wrapped to 64 bits, and every increment's reply is the sum so far. */
  lemma {:induction false} CounterIsTheSum(d: Doc, cs: seq<Timed>, size: Sizes, p: Segments)
    requires CounterRun(cs, p)
    ensures IntegerOf(Get(Run(d, cs, size).0.data, p)) == Wrap(IntegerOf(Get(d.data, p)) + Total(cs, p))
    ensures forall i :: 0 <= i < |cs| && cs[i].cmd.IncCmd? && At(cs[i].cmd.path, p) ==>
              Run(d, cs, size).1[i] == Count(Wrap(IntegerOf(Get(d.data, p)) + TotalThrough(cs, i, p)))
    decreases |cs|
  {
    hide Serve, Get, At, Spares, Wrap, Amount;
    var n := IntegerOf(Get(d.data, p));
    if cs == [] {
      WrapIsIdentityInRange(n);
    } else {
      CounterIsTheSum(d, Front(cs), size, p);
      var e := Run(d, Front(cs), size).0;
      CounterStep(e, Last(cs), size, p);
      WrapAbsorbs(n + Total(Front(cs), p), Amount(Last(cs).cmd, p));
      assert cs[..|cs|] == cs;
      forall i | 0 <= i < |cs| - 1 ensures TotalThrough(cs, i, p) == TotalThrough(Front(cs), i, p) {
        assert cs[..i + 1] == Front(cs)[..i + 1];
      }
    }
  }

  /** While the sum stays in range it is the plain sum. */
  lemma CounterInRange(d: Doc, cs: seq<Timed>, size: Sizes, p: Segments)
    requires CounterRun(cs, p)
    requires -TWO_63 <= IntegerOf(Get(d.data, p)) + Total(cs, p) < TWO_63
    ensures IntegerOf(Get(Run(d, cs, size).0.data, p)) == IntegerOf(Get(d.data, p)) + Total(cs, p)
  {
    CounterIsTheSum(d, cs, size, p);
    WrapIsIdentityInRange(IntegerOf(Get(d.data, p)) + Total(cs, p));
  }

  /** The document is an integer that the increment leaves as it is. */
  predicate AddsNothing(d: Doc, delta: I64) {
    d.data.Num? && d.data.number.Integer? && delta == 0
  }

  /** An increment's reply is what a read of the value returns afterwards exactly
    * when the text names a place, or the whole document is an integer and
    * nothing is added. */
  lemma IncrementSticksIff(d: Doc, path: string, delta: I64, now: U64)
    requires Increment(d, path, delta, now).1.Done?
    ensures var (d', r) := Increment(d, path, delta, now);
            PathEngine.Read(d'.data, path) == PathEngine.Found(Num(Integer(r.value)))
            <==> PathEngine.Names(path) || AddsNothing(d, delta)
  {
    PathEngine.WrittenIsReadBackIff(d.data, path, Num(Integer(Increment(d, path, delta, now).1.value)));
    if !PathEngine.Names(path) {
      SameSumIff(d, path, delta, now);
    }
  }

  /** Where nothing is written, the sum is the document exactly when nothing is added. */
  lemma SameSumIff(d: Doc, path: string, delta: I64, now: U64)
    requires Increment(d, path, delta, now).1.Done? && !PathEngine.Names(path)
    ensures d.data == Num(Integer(Increment(d, path, delta, now).1.value)) <==> AddsNothing(d, delta)
  {
    PathEngine.ReadIs(d.data, path);
    if d.data.Num? && d.data.number.Integer? {
      WrapIsIdentityInRange(d.data.number.n);
      if Wrap(d.data.number.n + delta) == d.data.number.n {
        SameRemainder(d.data.number.n + delta, d.data.number.n);
      }
    }
  }

  // ---------- lists ----------

  predicate Pushes(c: Command, p: Segments) {
    c.PushCmd? && At(c.path, p)
  }

  ghost predicate ListRun(cs: seq<Timed>, p: Segments) {
    forall i :: 0 <= i < |cs| ==> Spares(cs[i].cmd, p) || Pushes(cs[i].cmd, p)
  }

  /** The values whose push at `p` was accepted, in order. */
  function Pushed(cs: seq<Timed>, replies: seq<Reply>, p: Segments): seq<Value>
    requires |cs| == |replies|
  {
    if cs == [] then [] else
    var before := Pushed(Front(cs), Front(replies), p);
    if Pushes(Last(cs).cmd, p) && Last(replies) == Accepted then before + [Last(cs).cmd.value] else before
  }

  /** A push at a named place is accepted exactly when it holds a list or nothing. */
  lemma PushAt(d: Doc, path: string, x: Value, now: U64, p: Segments)
    requires At(path, p)
    ensures var (d', r) := Push(d, path, x, now);
            match Get(d.data, p)
            case None => r == Done(()) && Get(d'.data, p) == Some(Array([x]))
            case Some(Array(items)) => r == Done(()) && Get(d'.data, p) == Some(Array(items + [x]))
            case Some(_) => (d', r) == (d, Failed(InvalidPath))
  {
    ReadAt(d.data, path, p);
    match Get(d.data, p)
    case None =>
      WriteAt(d.data, path, Array([]), p);
      var v := Put(d.data, p, Array([]));
      ReadAt(v, path, p);
      WriteAt(v, path, Array([] + [x]), p);
      assert [] + [x] == [x];
    case Some(Array(items)) => WriteAt(d.data, path, Array(items + [x]), p);
    case _ =>
  }

  lemma PushStep(d: Doc, c: Timed, size: Sizes, p: Segments)
    requires Spares(c.cmd, p) || Pushes(c.cmd, p)
    ensures var (e, r) := Serve(d, c, size);
            if Pushes(c.cmd, p) && r == Accepted then
              (Get(d.data, p).Some? ==> Get(d.data, p).value.Array?) &&
              Get(e.data, p) == Some(Array(ItemsAt(d, p) + [c.cmd.value]))
            else Undisturbed(d.data, e.data, p)
  {
    if Pushes(c.cmd, p) {
      PushAt(d, c.cmd.path, c.cmd.value, c.now, p);
      assert [] + [c.cmd.value] == [c.cmd.value];
    } else {
      SparingKeeps(d, c, size, p);
    }
  }

  /** The list at `p`, empty when there is none. */
  function ItemsAt(d: Doc, p: Segments): seq<Value> {
    if Get(d.data, p).Some? then ItemsOf(Get(d.data, p).value) else []
  }

  /** In every run of pushes at `p` among writes elsewhere, the accepted values
    * extend the old list in order; until one is accepted, `p` is undisturbed. */
  lemma {:induction false} PushesExtendTheList(d: Doc, cs: seq<Timed>, size: Sizes, p: Segments)
    requires ListRun(cs, p)
    ensures var (e, replies) := Run(d, cs, size);
            var xs := Pushed(cs, replies, p);
            if xs == [] then Undisturbed(d.data, e.data, p)
            else (Get(d.data, p).Some? ==> Get(d.data, p).value.Array?) &&
                 Get(e.data, p) == Some(Array(ItemsAt(d, p) + xs))
    decreases |cs|
  {
    hide Serve, Get, At, Spares;
    if cs != [] {
      PushesExtendTheList(d, Front(cs), size, p);
      var (e, replies) := Run(d, Front(cs), size);
      var x, xs := Last(cs).cmd, Pushed(Front(cs), replies, p);
      assert Front(Run(d, cs, size).1) == replies;
      PushStep(e, Last(cs), size, p);
      if x.PushCmd? {
        assert ItemsAt(d, p) + xs + [x.value] == ItemsAt(d, p) + (xs + [x.value]);
        assert xs == [] ==> ItemsAt(d, p) + xs == ItemsAt(d, p);
      }
    }
  }

  /** Deleting a path leaves a Null there, so a list deleted cannot be pushed to again. */
  lemma PushAfterDeleteIsRefused(d: Doc, path: string, x: Value, now: U64, later: U64, p: Segments)
    requires At(path, p)
    ensures var e := Delete(d, Some(path), now).0;
            Get(e.data, p) == Some(Null) && Push(e, path, x, later) == (e, Failed(InvalidPath))
  {
    WriteAt(d.data, path, Null, p);
    PushAt(Delete(d, Some(path), now).0, path, x, later, p);
  }

  /** On every text, after a path was deleted a push there is accepted exactly
    * when the text names no place and the whole document is a list. */
  lemma PushAfterDeleteIff(d: Doc, path: string, x: Value, now: U64, later: U64)
    requires Delete(d, Some(path), now).1.Done?
    ensures var e := Delete(d, Some(path), now).0;
            Push(e, path, x, later).1.Done? <==> !PathEngine.Names(path) && d.data.Array?
  {
    var p := PathParser.Parse(path);
    if PathEngine.Names(path) {
      PushAfterDeleteIsRefused(d, path, x, now, later, p);
    } else {
      PathEngine.ReadIs(d.data, path);
    }
  }

  /** The list read at a text, empty when there is none. */
  function ListAt(d: Doc, path: string): seq<Value> {
    match PathEngine.Read(d.data, path)
    case Found(v) => ItemsOf(v)
    case _ => []
  }

  /** A push that was accepted is read back behind the old values exactly when
    * the text names a place; elsewhere it is counted as a change and lost. */
  lemma PushSticksIff(d: Doc, path: string, x: Value, now: U64)
    requires Push(d, path, x, now).1.Done?
    ensures var e := Push(d, path, x, now).0;
            (PathEngine.Read(e.data, path) == PathEngine.Found(Array(ListAt(d, path) + [x])) <==>
                PathEngine.Names(path)) &&
            (!PathEngine.Names(path) ==> e.data == d.data && e.meta.version == d.meta.version + 1)
  {
    var p := PathParser.Parse(path);
    var e := Push(d, path, x, now).0;
    if PathEngine.Names(path) {
      PushAt(d, path, x, now, p);
      ReadAt(d.data, path, p);
      ReadAt(e.data, path, p);
      assert [] + [x] == [x];
    } else {
      PathEngine.ReadIs(d.data, path);
      assert e.data == d.data;
      assert |ListAt(d, path) + [x]| == |ListAt(d, path)| + 1;
    }
  }

  // ---------- versions and compaction ----------

  predicate Mutates(c: Command, r: Reply) {
    !c.CompactCmd? && !c.ExpireCmd? && (r.Accepted? || r.Count?)
  }

  function Mutations(cs: seq<Timed>, replies: seq<Reply>): nat
    requires |cs| == |replies|
  {
    if cs == [] then 0 else
    Mutations(Front(cs), Front(replies)) + if Mutates(Last(cs).cmd, Last(replies)) then 1 else 0
  }

  /** The time of the last accepted change. */
  function LastMutation(since: U64, cs: seq<Timed>, replies: seq<Reply>): U64
    requires |cs| == |replies|
  {
    if cs == [] then since else
    if Mutates(Last(cs).cmd, Last(replies)) then Last(cs).now else LastMutation(since, Front(cs), Front(replies))
  }

  lemma VersionStep(d: Doc, c: Timed, size: Sizes)
    ensures var (e, r) := Serve(d, c, size);
            e.meta.version == d.meta.version + (if Mutates(c.cmd, r) then 1 else 0) &&
            e.meta.updatedAt == (if Mutates(c.cmd, r) then c.now else d.meta.updatedAt) &&
            e.meta.strategy == d.meta.strategy && e.meta.id == d.meta.id && e.meta.createdAt == d.meta.createdAt
  {
    hide PathEngine.Read, PathEngine.Write, ShouldCompact;
    match c.cmd
    case SetCmd(path, x) =>
    case PushCmd(path, x) =>
    case DelCmd(place) =>
    case IncCmd(path, delta) =>
    case _ =>
  }

  /** The version counts the accepted changes and the update time is that of the
    * last one; compaction and expiry add none. */
  lemma {:induction false} VersionCountsMutations(d: Doc, cs: seq<Timed>, size: Sizes)
    ensures var (e, replies) := Run(d, cs, size);
            e.meta.version == d.meta.version + Mutations(cs, replies) &&
            e.meta.updatedAt == LastMutation(d.meta.updatedAt, cs, replies) &&
            e.meta.strategy == d.meta.strategy && e.meta.id == d.meta.id && e.meta.createdAt == d.meta.createdAt
    decreases |cs|
  {
    hide Serve, Mutates;
    if cs != [] {
      VersionCountsMutations(d, Front(cs), size);
      assert Front(Run(d, cs, size).1) == Run(d, Front(cs), size).1;
      VersionStep(Run(d, Front(cs), size).0, Last(cs), size);
    }
  }

  /** What clients can see of a document. */
  predicate LooksLike(d: Doc, e: Doc) {
    d.meta == e.meta && d.ydoc.content == e.ydoc.content && d.data == e.data
  }

  function WithoutCompact(cs: seq<Timed>): seq<Timed> {
    if cs == [] then [] else
    WithoutCompact(Front(cs)) + if Last(cs).cmd.CompactCmd? then [] else [Last(cs)]
  }

  function OtherReplies(cs: seq<Timed>, replies: seq<Reply>): seq<Reply>
    requires |cs| == |replies|
  {
    if cs == [] then [] else
    OtherReplies(Front(cs), Front(replies)) + if Last(cs).cmd.CompactCmd? then [] else [Last(replies)]
  }

  lemma CompactedLooksAlike(d: Doc, e: Doc, size: Sizes, size': Sizes)
    requires LooksLike(d, e)
    ensures LooksLike(AutoCompacted(d, size), AutoCompacted(e, size'))
  {
    hide ShouldCompact;
  }

  lemma CompactionKeepsReads(d: Doc, place: Option<string>, size: Sizes)
    ensures Fetch(AutoCompacted(d, size), place) == Fetch(d, place)
  {
    hide ShouldCompact, PathEngine.Read;
  }

  lemma PushLooksAlike(d: Doc, e: Doc, path: string, x: Value, now: U64)
    requires LooksLike(d, e)
    ensures LooksLike(Push(d, path, x, now).0, Push(e, path, x, now).0) &&
            Push(d, path, x, now).1 == Push(e, path, x, now).1
  {
    hide PathEngine.Read, PathEngine.Write;
  }

  lemma ServeLooksAlike(d: Doc, e: Doc, c: Timed, size: Sizes, size': Sizes)
    requires LooksLike(d, e) && !c.cmd.CompactCmd?
    ensures LooksLike(Serve(d, c, size).0, Serve(e, c, size').0) && Serve(d, c, size).1 == Serve(e, c, size').1
  {
    hide PathEngine.Read, PathEngine.Write, AutoCompacted, Push;
    match c.cmd
    case SetCmd(path, x) =>
      CompactedLooksAlike(Set(d, path, x, c.now).0, Set(e, path, x, c.now).0, size, size');
    case PushCmd(path, x) =>
      PushLooksAlike(d, e, path, x, c.now);
      CompactedLooksAlike(Push(d, path, x, c.now).0, Push(e, path, x, c.now).0, size, size');
    case DelCmd(place) =>
    case IncCmd(path, delta) =>
      CompactedLooksAlike(Increment(d, path, delta, c.now).0, Increment(e, path, delta, c.now).0, size, size');
    case _ =>
  }

  lemma {:induction false} RunAppend(d: Doc, cs: seq<Timed>, c: Timed, size: Sizes)
    ensures Run(d, cs + [c], size) ==
              var r := Run(d, cs, size); (Serve(r.0, c, size).0, r.1 + [Serve(r.0, c, size).1])
  {
    assert Front(cs + [c]) == cs;
  }

  lemma CompactLooksTheSame(d: Doc, e: Doc, c: Timed, size: Sizes)
    requires LooksLike(d, e) && c.cmd.CompactCmd?
    ensures LooksLike(Serve(d, c, size).0, e)
  {}

  /** Compaction is invisible: leave out the COMPACT commands, let automatic
    * compaction strike at other moments, and every other reply and everything
    * that can be read stay the same. */
  lemma {:induction false} CompactionIsInvisible(d: Doc, e: Doc, cs: seq<Timed>, size: Sizes, size': Sizes)
    requires LooksLike(d, e)
    ensures LooksLike(Run(d, cs, size).0, Run(e, WithoutCompact(cs), size').0)
    ensures OtherReplies(cs, Run(d, cs, size).1) == Run(e, WithoutCompact(cs), size').1
    decreases |cs|
  {
    hide Serve, LooksLike;
    if cs != [] {
      CompactionIsInvisible(d, e, Front(cs), size, size');
      var before := Run(d, Front(cs), size);
      assert Front(Run(d, cs, size).1) == before.1;
      if Last(cs).cmd.CompactCmd? {
        CompactLooksTheSame(before.0, Run(e, WithoutCompact(Front(cs)), size').0, Last(cs), size);
        assert WithoutCompact(cs) == WithoutCompact(Front(cs));
      } else {
        RunAppend(e, WithoutCompact(Front(cs)), Last(cs), size');
        ServeLooksAlike(before.0, Run(e, WithoutCompact(Front(cs)), size').0, Last(cs), size, size');
      }
    }
  }

  predicate SetsText(c: Command) {
    c.SetCmd? && c.value.Str?
  }

  function LastText(content: string, cs: seq<Timed>): string {
    if cs == [] then content else
    if SetsText(Last(cs).cmd) then Last(cs).cmd.value.text else LastText(content, Front(cs))
  }

  function TextSets(cs: seq<Timed>): nat {
    if cs == [] then 0 else TextSets(Front(cs)) + if SetsText(Last(cs).cmd) then 1 else 0
  }

  lemma TextStep(d: Doc, c: Timed, size: Sizes)
    requires d.meta.strategy == CrdtText && d.updates < COMPACTION_THRESHOLD
    ensures var e := Serve(d, c, size).0;
            var more := if SetsText(c.cmd) then 1 else 0;
            e.meta.strategy == CrdtText && e.updates < COMPACTION_THRESHOLD && e.compactions >= d.compactions &&
            e.ydoc.content == (if SetsText(c.cmd) then c.cmd.value.text else d.ydoc.content) &&
            d.updates + more <= COMPACTION_THRESHOLD * (e.compactions - d.compactions) + e.updates &&
            (|d.ydoc.history| <= d.updates + 1 ==> |e.ydoc.history| <= e.updates + 1)
  {
    hide PathEngine.Read, PathEngine.Write;
    match c.cmd
    case SetCmd(path, x) =>
    case PushCmd(path, x) =>
    case DelCmd(place) =>
    case IncCmd(path, delta) =>
    case _ =>
  }

  /** In every run on a text document the content is the last text set, the
    * update count stays below the threshold between commands, and compaction
    * keeps up with the number of sets. */
  lemma {:induction false} TextRun(d: Doc, cs: seq<Timed>, size: Sizes)
    requires d.meta.strategy == CrdtText && d.updates < COMPACTION_THRESHOLD
    ensures var e := Run(d, cs, size).0;
            e.ydoc.content == LastText(d.ydoc.content, cs) &&
            e.updates < COMPACTION_THRESHOLD && e.compactions >= d.compactions &&
            d.updates + TextSets(cs) <= COMPACTION_THRESHOLD * (e.compactions - d.compactions) + e.updates
    decreases |cs|
  {
    hide Serve, SetsText;
    if cs != [] {
      TextRun(d, Front(cs), size);
      VersionCountsMutations(d, Front(cs), size);
      TextStep(Run(d, Front(cs), size).0, Last(cs), size);
    }
  }

  /** The edits a text document remembers are the updates since its last
    * compaction, plus the snapshot compaction left: history never outgrows the threshold. */
  lemma {:induction false} HistoryIsBounded(d: Doc, cs: seq<Timed>, size: Sizes)
    requires d.meta.strategy == CrdtText && |d.ydoc.history| <= d.updates + 1 && d.updates < COMPACTION_THRESHOLD
    ensures |Run(d, cs, size).0.ydoc.history| <= COMPACTION_THRESHOLD
    ensures |Run(d, cs, size).0.ydoc.history| <= Run(d, cs, size).0.updates + 1
    decreases |cs|
  {
    hide Serve, SetsText;
    TextRun(d, cs, size);
    if cs != [] {
      HistoryIsBounded(d, Front(cs), size);
      TextRun(d, Front(cs), size);
      VersionCountsMutations(d, Front(cs), size);
      TextStep(Run(d, Front(cs), size).0, Last(cs), size);
    }
  }

  /** A text document since its creation. */
  lemma TextDocumentSinceCreation(id: string, ttl: Option<U64>, now: U64, cs: seq<Timed>, size: Sizes)
    ensures var (e, replies) := Run(NewDoc(id, CrdtText, ttl, now), cs, size);
            Fetch(e, None) == Done(Str(LastText("", cs))) &&
            e.meta.version == 1 + Mutations(cs, replies) &&
            e.updates < COMPACTION_THRESHOLD &&
            TextSets(cs) <= COMPACTION_THRESHOLD * e.compactions + e.updates &&
            |e.ydoc.history| <= COMPACTION_THRESHOLD
  {
    var d := NewDoc(id, CrdtText, ttl, now);
    TextRun(d, cs, size);
    VersionCountsMutations(d, cs, size);
    HistoryIsBounded(d, cs, size);
  }

  // ---------- when compaction strikes ----------

  /** A SET of a string on a text document replaces the text and adds an edit to
    * the history, or a snapshot in its place when compaction is due; of anything
    * else it is refused. */
  lemma TextSetIs(d: Doc, path: string, x: Value, now: U64, size: Sizes)
    requires d.meta.strategy == CrdtText
    ensures Serve(d, Timed(SetCmd(path, x), now), size) ==
              if x.Str? then
                var edited := YDoc(x.text, d.ydoc.history + [x.text]);
                var due := d.updates + 1 >= 1000 || (d.updates + 1 > 100 && size(edited) >= 1048576);
                (Doc(d.meta.(version := d.meta.version + 1, updatedAt := now),
                     if due then YDoc(x.text, [x.text]) else edited, d.data,
                     if due then 0 else d.updates + 1, d.compactions + if due then 1 else 0), Accepted)
              else (d, Refused(Crdt))
  {}

  /** After any other accepted write a document is compacted exactly when that is
    * due already; its text stays. */
  lemma WriteCompactsIff(d: Doc, c: Timed, size: Sizes)
    requires (c.cmd.SetCmd? && d.meta.strategy != CrdtText) || c.cmd.PushCmd? || c.cmd.IncCmd?
    requires Mutates(c.cmd, Serve(d, c, size).1)
    ensures var e := Serve(d, c, size).0;
            var due := d.updates >= 1000 || (d.updates > 100 && size(d.ydoc) >= 1048576);
            e.updates == (if due then 0 else d.updates) && e.compactions == d.compactions + (if due then 1 else 0) &&
            e.ydoc == (if due && d.meta.strategy == CrdtText then YDoc(d.ydoc.content, [d.ydoc.content]) else d.ydoc)
  {
    hide PathEngine.Read, PathEngine.Write;
    match c.cmd
    case SetCmd(path, x) =>
    case PushCmd(path, x) =>
    case IncCmd(path, delta) =>
  }

  /** COMPACT leaves a snapshot of a text, starts counting anew, and replies with
    * the bytes saved, never less than none. */
  lemma CompactIs(d: Doc, now: U64, size: Sizes)
    ensures var (e, r) := Serve(d, Timed(CompactCmd, now), size);
            e == d.(ydoc := e.ydoc, updates := 0, compactions := d.compactions + 1) &&
            e.ydoc == (if d.meta.strategy == CrdtText then YDoc(d.ydoc.content, [d.ydoc.content]) else d.ydoc) &&
            r == Count(if size(d.ydoc) >= size(e.ydoc) then size(d.ydoc) - size(e.ydoc) else 0)
  {}

  /** Deleting everything empties the object and counts as a change. */
  lemma DeleteAllIs(d: Doc, now: U64, size: Sizes)
    ensures Serve(d, Timed(DelCmd(None), now), size) ==
              (Doc(d.meta.(version := d.meta.version + 1, updatedAt := now), d.ydoc, Object(map[]), d.updates,
                   d.compactions), Accepted)
  {}

  /** DEL of a path writes Null there, and neither DEL nor EXPIRE ever compacts. */
  lemma DeleteIs(d: Doc, path: string, now: U64, size: Sizes)
    ensures Serve(d, Timed(DelCmd(Some(path)), now), size) ==
              match PathEngine.Write(d.data, path, Null)
              case None => (d, NoReply)
              case Some(data) =>
                (Doc(d.meta.(version := d.meta.version + 1, updatedAt := now), d.ydoc, data, d.updates, d.compactions),
                 Accepted)
    ensures forall ttl :: Serve(d, Timed(ExpireCmd(ttl), now), size) == (d.(meta := d.meta.(ttl := ttl)), Accepted)
  {
    hide PathEngine.Write;
  }

  // ---------- reading one's own write ----------

  /** A part of a value is smaller than it. */
  lemma {:induction false} PartsAreSmaller(v: Value, p: Segments)
    requires p != [] && Get(v, p).Some?
    ensures Get(v, p).value < v
    decreases |p|
  {
    var c := Child(v, p[0]).value;
    assert c < v;
    if |p| > 1 {
      PartsAreSmaller(c, p[1..]);
    }
  }

  lemma PutIsNeverJustTheValue(v: Value, p: Segments, x: Value)
    requires p != []
    ensures Put(v, p, x) != x
  {
    GetPut(v, p, x);
    PartsAreSmaller(Put(v, p, x), p);
  }

  /** After a write at a text the whole value is what was written exactly when
    * the text is empty, or names no place and the value already was that. */
  lemma WholeAfterWriteIff(v: Value, path: string, x: Value)
    requires PathEngine.Write(v, path, x).Some?
    ensures PathEngine.Write(v, path, x).value == x <==> path == "" || (!PathEngine.Names(path) && v == x)
  {
    if path != "" && PathEngine.Names(path) {
      PathEngine.WriteIs(v, path, x);
      PutIsNeverJustTheValue(v, PathParser.Parse(path), x);
    }
  }

  /** After an accepted SET, a GET of the same path returns the value set exactly
    * in these cases: always on text documents; on documents read by path when
    * the path names a place (or nothing changed); and on counters and sets,
    * which are always read whole, only when the whole document was set. */
  lemma ReadYourWriteIff(d: Doc, path: string, x: Value, now: U64)
    requires Set(d, path, x, now).1.Done?
    ensures Fetch(Set(d, path, x, now).0, Some(path)) == Done(x) <==>
              match d.meta.strategy
              case CrdtText => true
              case CrdtCounter => path == "" || (!PathEngine.Names(path) && d.data == x)
              case CrdtSet => path == "" || (!PathEngine.Names(path) && d.data == x)
              case _ => PathEngine.Names(path) || d.data == x
  {
    PathEngine.WrittenIsReadBackIff(d.data, path, x);
    if d.meta.strategy != CrdtText {
      WholeAfterWriteIff(d.data, path, x);
    }
  }

  /** After an accepted INC, a GET of the same path returns the number replied
    * exactly in these cases: never on text documents; on counters and sets, which
    * are read whole, only when the whole document was incremented. */
  lemma IncrementThenFetchIff(d: Doc, path: string, delta: I64, now: U64)
    requires Increment(d, path, delta, now).1.Done?
    ensures var (e, r) := Increment(d, path, delta, now);
            Fetch(e, Some(path)) == Done(Num(Integer(r.value))) <==>
              match d.meta.strategy
              case CrdtText => false
              case CrdtCounter => path == "" || (!PathEngine.Names(path) && AddsNothing(d, delta))
              case CrdtSet => path == "" || (!PathEngine.Names(path) && AddsNothing(d, delta))
              case _ => PathEngine.Names(path) || AddsNothing(d, delta)
  {
    hide PathEngine.Read, PathEngine.Write, PathEngine.Names, AddsNothing;
    IncrementSticksIff(d, path, delta, now);
    WholeAfterWriteIff(d.data, path, Num(Integer(Increment(d, path, delta, now).1.value)));
    if !PathEngine.Names(path) {
      SameSumIff(d, path, delta, now);
    }
  }

  /** After an accepted PUSH, a GET of the same path returns the old values and
    * the new one exactly in these cases. */
  lemma PushThenFetchIff(d: Doc, path: string, x: Value, now: U64)
    requires Push(d, path, x, now).1.Done?
    ensures Fetch(Push(d, path, x, now).0, Some(path)) == Done(Array(ListAt(d, path) + [x])) <==>
              match d.meta.strategy
              case CrdtText => false
              case CrdtCounter => path == ""
              case CrdtSet => path == ""
              case _ => PathEngine.Names(path)
  {
    var e := Push(d, path, x, now).0;
    PushSticksIff(d, path, x, now);
    PushKeepsMeta(d, path, x, now);
    PathEngine.ReadIs(e.data, path);
    if !PathEngine.Names(path) {
      PathEngine.ReadIs(d.data, path);
      assert |ListAt(d, path) + [x]| == |ListAt(d, path)| + 1;
    } else if path != "" {
      PartsAreSmaller(e.data, PathParser.Parse(path));
    }
  }

  lemma PushKeepsMeta(d: Doc, path: string, x: Value, now: U64)
    ensures Push(d, path, x, now).0.meta.strategy == d.meta.strategy
  {
    hide PathEngine.Read, PathEngine.Write;
  }

  /** After an accepted DEL of a path, a GET of it returns Null exactly in these cases. */
  lemma DeleteThenFetchIff(d: Doc, path: string, now: U64)
    requires Delete(d, Some(path), now).1.Done?
    ensures Fetch(Delete(d, Some(path), now).0, Some(path)) == Done(Null) <==>
              match d.meta.strategy
              case CrdtText => false
              case CrdtCounter => path == "" || (!PathEngine.Names(path) && d.data.Null?)
              case CrdtSet => path == "" || (!PathEngine.Names(path) && d.data.Null?)
              case _ => PathEngine.Names(path) || d.data.Null?
  {
    PathEngine.WrittenIsReadBackIff(d.data, path, Null);
    WholeAfterWriteIff(d.data, path, Null);
  }

  /** On a text document only a SET of a string changes what is read. */
  lemma TextShowsOnlySets(d: Doc, c: Timed, place: Option<string>, size: Sizes)
    requires d.meta.strategy == CrdtText && !SetsText(c.cmd)
    ensures Fetch(Serve(d, c, size).0, place) == Fetch(d, place)
  {
    hide PathEngine.Read, PathEngine.Write, ShouldCompact;
    match c.cmd
    case SetCmd(path, x) =>
    case PushCmd(path, x) =>
    case DelCmd(at) =>
    case IncCmd(path, delta) =>
    case _ =>
  }
}
