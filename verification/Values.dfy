/** The JSON-like value tree and the recursive meaning of reading and writing
  * along a list of path segments (crates/ussl-core/src/crdt.rs). */
module Values {
  import opened Basics

  datatype Number = Integer(n: I64) | Float(bits: bv64)

  datatype Value =
    | Null
    | Bool(b: bool)
    | Num(number: Number)
    | Str(text: string)
    | Binary(bytes: seq<bv8>)
    | Array(items: seq<Value>)
    | Object(fields: map<string, Value>)

  datatype Segment = Key(key: string) | Index(index: nat)

  type Segments = seq<Segment>

  function IntegerOf(v: Option<Value>): I64 {
    match v
    case Some(Num(Integer(n))) => n
    case _ => 0
  }

  /** The child a segment selects, if there is one. */
  function Child(v: Value, s: Segment): Option<Value> {
    match s
    case Key(k) => if v.Object? && k in v.fields then Some(v.fields[k]) else None
    case Index(i) => if v.Array? && i < |v.items| then Some(v.items[i]) else None
  }

  function Get(v: Value, p: Segments): Option<Value>
    decreases |p|
  {
    if p == [] then Some(v) else
    match Child(v, p[0])
    case None => None
    case Some(c) => Get(c, p[1..])
  }

  /** A list padded with Null until it is at least `n` long. */
  function Pad(items: seq<Value>, n: nat): (r: seq<Value>)
    ensures |r| == if |items| < n then n else |items|
    ensures forall i :: 0 <= i < |r| ==> r[i] == if i < |items| then items[i] else Null
  {
    if |items| >= n then items else items + seq(n - |items|, _ => Null)
  }

  function FieldsOf(v: Value): map<string, Value> {
    if v.Object? then v.fields else map[]
  }

  function ItemsOf(v: Value): seq<Value> {
    if v.Array? then v.items else []
  }

  /** The container of the segment's kind that holds what `v` held, with room for the segment. */
  function Opened(v: Value, s: Segment): (o: Value)
    ensures Child(o, s).Some?
  {
    match s
    case Key(k) => Object(if k in FieldsOf(v) then FieldsOf(v) else FieldsOf(v)[k := Null])
    case Index(i) => Array(Pad(ItemsOf(v), i + 1))
  }

  function WithChild(o: Value, s: Segment, c: Value): Value
    requires Child(o, s).Some?
  {
    match s
    case Key(k) => Object(o.fields[k := c])
    case Index(i) => Array(o.items[i := c])
  }

  /** Write `x` at `p`, opening every container on the way. */
  function Put(v: Value, p: Segments, x: Value): Value
    decreases |p|
  {
    if p == [] then x else
    var o := Opened(v, p[0]);
    WithChild(o, p[0], Put(Child(o, p[0]).value, p[1..], x))
  }
}
