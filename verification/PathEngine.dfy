/** Reading and writing by path text (crates/ussl-core/src/crdt.rs:117-185):
  * what `get_path` and `set_path` do on every text, and the laws they inherit
  * from the segment lists. */
module PathEngine {
  import opened Basics
  import opened Values
  import opened PathLaws
  import PathParser

  datatype Lookup = Found(v: Value) | Missing | Hangs

  /** `get_path`: segments are parsed one at a time, so a missing child ends the
    * walk before a bracket further on could hang it. */
  function Lazily(v: Value, path: string, pos: nat): Lookup
    decreases |path| - pos
  {
    match PathParser.Next(path, pos)
    case (End, _) => Found(v)
    case (Stuck, _) => Hangs
    case (Segment(s), to) =>
      match Child(v, s)
      case None => Missing
      case Some(c) => Lazily(c, path, to)
  }

  function Read(v: Value, path: string): Lookup {
    if path == "" then Found(v) else Lazily(v, path, 0)
  }

  /** `set_path`: None when the call never returns. */
  function Write(v: Value, path: string, x: Value): Option<Value> {
    if path == "" then Some(x) else
    if !PathParser.Closed(path) then None else
    var p := PathParser.Parse(path);
    Some(if p == [] then v else Put(v, p, x))
  }

  lemma {:induction false} LazilyIs(v: Value, path: string, pos: nat)
    ensures var c := PathParser.Collect(path, pos);
            Lazily(v, path, pos) ==
              match Get(v, c.segments)
              case None => Missing
              case Some(w) => if c.stuck then Hangs else Found(w)
    decreases |path| - pos
  {
    match PathParser.Next(path, pos)
    case (Segment(s), to) =>
      var rest := PathParser.Collect(path, to).segments;
      assert ([s] + rest)[1..] == rest;
      if Child(v, s).Some? {
        LazilyIs(Child(v, s).value, path, to);
      }
    case _ =>
  }

  /** Reading a path: the value at its segments; it hangs only on an unclosed
    * path all of whose segments before the bracket resolve. */
  lemma ReadIs(v: Value, path: string)
    ensures var at := Get(v, PathParser.Parse(path));
            Read(v, path) == if at.None? then Missing
                             else if PathParser.Closed(path) then Found(at.value)
                             else Hangs
  {
    LazilyIs(v, path, 0);
    PathParser.CollectReturnsIffClosed(path, 0);
  }

  /** Path texts that name a place: the empty text, and closed texts with a segment. */
  predicate Names(path: string) {
    path == "" || (PathParser.Closed(path) && PathParser.Parse(path) != [])
  }

  lemma WriteIs(v: Value, path: string, x: Value)
    requires Names(path)
    ensures PathParser.Closed(path)
    ensures Write(v, path, x) == Some(Put(v, PathParser.Parse(path), x))
  {}

  predicate ReadsBack(v: Value, path: string, x: Value) {
    var w := Write(v, path, x);
    w.Some? && Read(w.value, path) == Found(x)
  }

  /** What was written is read back exactly when the text names a place. A text
    * such as "." has no segments: the write is lost, and only a value that was
    * already the whole document reads back. */
  lemma WrittenIsReadBackIff(v: Value, path: string, x: Value)
    ensures ReadsBack(v, path, x) <==> Names(path) || (PathParser.Closed(path) && v == x)
  {
    var p := PathParser.Parse(path);
    if Names(path) {
      WriteIs(v, path, x);
      ReadIs(Put(v, p, x), path);
      GetPut(v, p, x);
    } else if PathParser.Closed(path) {
      ReadIs(v, path);
    }
  }

  /** A concrete case: "." is closed and has no segments, so whatever is written there is lost. */
  lemma DotNamesNoPlace()
    ensures PathParser.Closed(".") && PathParser.Parse(".") == [] && !Names(".")
    ensures forall v, x :: Write(v, ".", x) == Some(v)
  {}

  /** A concrete case: "a[" is never closed. A write there does not return, and a
    * read returns exactly where there is no field "a". */
  lemma OpenBracketHangs()
    ensures !PathParser.Closed("a[") && PathParser.Parse("a[") == [Key("a")]
    ensures forall v, x :: Write(v, "a[", x) == None
    ensures forall v :: Read(v, "a[").Hangs? <==> Child(v, Key("a")).Some?
  {
    var path := "a[";
    assert PathParser.Unclosed(path, 0) by {
      assert path[1] == '[';
    }
    assert PathParser.KeyEnd(path, 0) == 1;
    assert path[0..1] == "a";
    assert PathParser.Next(path, 0) == (PathParser.Segment(Key("a")), 1);
    assert PathParser.Next(path, 1).0 == PathParser.Stuck;
    forall v: Value ensures Read(v, path).Hangs? <==> Child(v, Key("a")).Some? {
      ReadIs(v, path);
    }
  }

  /** Only the last of two writes at the same path counts. */
  lemma LastWriteWins(v: Value, path: string, x: Value, y: Value)
    requires Write(v, path, x).Some?
    ensures Write(Write(v, path, x).value, path, y) == Write(v, path, y)
  {
    PutPut(v, PathParser.Parse(path), x, y);
  }

  lemma WritingWhatIsThereChangesNothing(v: Value, path: string)
    requires Read(v, path).Found?
    ensures Write(v, path, Read(v, path).v) == Some(v)
  {
    ReadIs(v, path);
    PutGet(v, PathParser.Parse(path));
  }

  /** Two writes give the same value in either order, from every starting value,
    * exactly when their segment lists are independent. */
  lemma WritesCommuteIff(v: Value, a: string, b: string, x: Value, y: Value)
    requires Names(a) && Names(b)
    ensures Write(Write(v, a, x).value, b, y) == Write(Write(v, b, y).value, a, x)
            <==> Independent(PathParser.Parse(a), x, PathParser.Parse(b), y)
  {
    var p, q := PathParser.Parse(a), PathParser.Parse(b);
    WriteIs(v, a, x);
    WriteIs(v, b, y);
    WriteIs(Put(v, p, x), b, y);
    WriteIs(Put(v, q, y), a, x);
    PathLaws.WritesCommuteIff(v, p, q, x, y);
  }

  method GetPath(v: Value, path: string) returns (r: Lookup)
    ensures r == Read(v, path)
  {
    if path == "" {
      return Found(v);
    }
    var current := v;
    var parser := new PathParser.PathParser(path);
    ghost var pos := 0;
    while true
      invariant parser.path == path && parser.pos == pos <= |path|
      invariant Lazily(current, path, pos) == Lazily(v, path, 0)
      decreases |path| - pos
    {
      var item := parser.Advance();
      pos := parser.pos;
      match item
      case End => return Found(current);
      case Stuck => return Hangs;
      case Segment(s) =>
        var child := Child(current, s);
        if child.None? {
          return Missing;
        }
        current := child.value;
    }
  }

  /** What the iterator has delivered, followed by what it will deliver. */
  predicate Collecting(path: string, segments: Segments, pos: nat) {
    var c := PathParser.Collect(path, pos);
    PathParser.Collect(path, 0) == PathParser.Collected(segments + c.segments, c.stuck)
  }

  lemma CollectStep(path: string, segments: Segments, pos: nat)
    requires Collecting(path, segments, pos)
    ensures match PathParser.Next(path, pos)
            case (End, _) => PathParser.Collect(path, 0) == PathParser.Collected(segments, false)
            case (Stuck, _) => PathParser.Collect(path, 0) == PathParser.Collected(segments, true)
            case (Segment(s), to) => Collecting(path, segments + [s], to)
  {
    match PathParser.Next(path, pos)
    case (Segment(s), to) =>
      var rest := PathParser.Collect(path, to).segments;
      assert segments + ([s] + rest) == segments + [s] + rest;
    case _ =>
      assert segments + [] == segments;
  }

  /** `PathSegment::parse(path).collect()`; None when it never returns. */
  method CollectSegments(path: string) returns (p: Option<Segments>)
    ensures p == if PathParser.Closed(path) then Some(PathParser.Parse(path)) else None
  {
    hide Collecting, PathParser.Next, PathParser.Collect;
    PathParser.CollectReturnsIffClosed(path, 0);
    var segments: Segments := [];
    var parser := new PathParser.PathParser(path);
    CollectStart(path);
    while true
      invariant parser.path == path && parser.pos <= |path|
      invariant Collecting(path, segments, parser.pos)
      decreases |path| - parser.pos
    {
      CollectStep(path, segments, parser.pos);
      var item := parser.Advance();
      match item
      case End => return Some(segments);
      case Stuck => return None;
      case Segment(s) => segments := segments + [s];
    }
  }

  lemma CollectStart(path: string)
    ensures Collecting(path, [], 0)
  {
    hide PathParser.Collect;
    assert [] + PathParser.Collect(path, 0).segments == PathParser.Collect(path, 0).segments;
  }
}
