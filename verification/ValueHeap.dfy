/** `set_path` as the source runs it: a mutable reference walks down the tree
  * and containers are replaced, extended and filled in place
  * (crates/ussl-core/src/crdt.rs). A tree in memory is a graph of slots; its
  * ghost layout says which slots it owns, each exactly once. */
module ValueHeap {
  import opened Basics
  import opened Values
  import PathParser
  import PathEngine

  datatype Shape =
    | Scalar(v: Value)
    | List(slots: seq<Slot>)
    | Fields(table: map<string, Slot>)

  class Slot {
    var shape: Shape

    constructor (shape: Shape)
      ensures this.shape == shape
    {
      this.shape := shape;
    }
  }

  /** The slot a segment selects in a container. */
  function Sub(shape: Shape, s: Segment): Option<Slot> {
    match s
    case Key(k) => if shape.Fields? && k in shape.table then Some(shape.table[k]) else None
    case Index(i) => if shape.List? && i < |shape.slots| then Some(shape.slots[i]) else None
  }

  predicate SameForm(shape: Shape, v: Value) {
    match shape
    case Scalar(w) => w == v && !v.Array? && !v.Object?
    case List(slots) => v.Array? && |v.items| == |slots|
    case Fields(table) => v.Object? && v.fields.Keys == table.Keys
  }

  /** Which slots a tree is made of. */
  datatype Layout = Layout(slot: Slot, kids: map<Segment, Layout>)

  ghost function Footprint(l: Layout): set<Slot> {
    {l.slot} + set s, n | s in l.kids && n in Footprint(l.kids[s]) :: n
  }

  lemma FootprintIsAllocated(l: Layout)
    ensures forall n :: n in Footprint(l) ==> allocated(n)
  {
    forall s | s in l.kids ensures forall n :: n in Footprint(l.kids[s]) ==> allocated(n) {
      FootprintIsAllocated(l.kids[s]);
    }
  }

  ghost predicate Separated(l: Layout) {
    && (forall s :: s in l.kids ==> Separated(l.kids[s]) && l.slot !in Footprint(l.kids[s]))
    && (forall s, t :: s in l.kids && t in l.kids && s != t ==> Footprint(l.kids[s]) !! Footprint(l.kids[t]))
  }

  /** The tree laid out as `l` holds the value `v`. */
  ghost predicate Holds(l: Layout, v: Value)
    reads Footprint(l)
  {
    && SameForm(l.slot.shape, v)
    && (forall s :: s in l.kids <==> Child(v, s).Some?)
    && (forall s :: s in l.kids ==> Sub(l.slot.shape, s) == Some(l.kids[s].slot))
    && (forall s :: s in l.kids ==> Child(v, s).Some? && Holds(l.kids[s], Child(v, s).value))
  }

  /** A well-formed tree rooted at `slot`: no slot is shared, and it holds `v`. */
  ghost predicate Owns(l: Layout, slot: Slot, v: Value)
    reads Footprint(l)
  {
    l.slot == slot && Separated(l) && Holds(l, v)
  }

  // ---------- containers, in place ----------

  lemma KidFootprint(l: Layout, s: Segment)
    requires s in l.kids
    ensures Footprint(l.kids[s]) <= Footprint(l)
  {}

  lemma ScalarOwned(slot: Slot, v: Value)
    requires slot.shape == Scalar(v) && !v.Array? && !v.Object?
    ensures Owns(Layout(slot, map[]), slot, v) && Footprint(Layout(slot, map[])) == {slot}
  {}

  function Gains(l: Layout, s: Segment, kid: Layout): Layout {
    Layout(l.slot, l.kids[s := kid])
  }

  lemma GainsFootprint(l: Layout, s: Segment, kid: Layout)
    requires s !in l.kids
    ensures Footprint(Gains(l, s, kid)) == Footprint(l) + Footprint(kid)
  {
    var m := Gains(l, s, kid);
    forall n | n in Footprint(l) + Footprint(kid) ensures n in Footprint(m) {
      if n in Footprint(kid) {
        assert s in m.kids && m.kids[s] == kid;
      } else if n != l.slot {
        var t :| t in l.kids && n in Footprint(l.kids[t]);
        assert t in m.kids && m.kids[t] == l.kids[t];
      }
    }
    forall n | n in Footprint(m) ensures n in Footprint(l) + Footprint(kid) {
      if n != l.slot && n !in Footprint(kid) {
        var t :| t in m.kids && n in Footprint(m.kids[t]);
        assert t in l.kids && m.kids[t] == l.kids[t];
      }
    }
  }

  lemma GainsSeparated(l: Layout, s: Segment, kid: Layout)
    requires s !in l.kids && Separated(l) && Separated(kid) && Footprint(l) !! Footprint(kid)
    ensures Separated(Gains(l, s, kid))
  {
    var m := Gains(l, s, kid);
    forall t | t in l.kids ensures Footprint(l.kids[t]) <= Footprint(l) {
      KidFootprint(l, t);
    }
    assert l.slot in Footprint(l);
    forall t | t in m.kids ensures Separated(m.kids[t]) && m.slot !in Footprint(m.kids[t]) {
      if t != s { assert m.kids[t] == l.kids[t]; }
    }
    forall t, u | t in m.kids && u in m.kids && t != u ensures Footprint(m.kids[t]) !! Footprint(m.kids[u]) {
      if t == s {
        assert m.kids[u] == l.kids[u];
      } else if u == s {
        assert m.kids[t] == l.kids[t];
      } else {
        assert m.kids[t] == l.kids[t] && m.kids[u] == l.kids[u];
      }
    }
  }

  /** All kids but the one under `s` hold what `v` has there. */
  ghost predicate HoldsExcept(l: Layout, v: Value, s: Segment)
    reads Footprint(l)
  {
    && s !in l.kids
    && SameForm(l.slot.shape, v)
    && (forall t :: t in l.kids <==> t != s && Child(v, t).Some?)
    && (forall t :: t in l.kids ==> Sub(l.slot.shape, t) == Some(l.kids[t].slot))
    && (forall t :: t in l.kids ==> Child(v, t).Some? && Holds(l.kids[t], Child(v, t).value))
  }

  lemma GainsHolds(l: Layout, v: Value, s: Segment, kid: Layout)
    requires HoldsExcept(l, v, s)
    requires Child(v, s).Some? && Sub(l.slot.shape, s) == Some(kid.slot) && Holds(kid, Child(v, s).value)
    ensures Holds(Gains(l, s, kid), v)
  {
    var m := Gains(l, s, kid);
    forall t | t in m.kids ensures Child(v, t).Some? && Holds(m.kids[t], Child(v, t).value) {
      if t != s { assert m.kids[t] == l.kids[t]; }
    }
  }

  /** The tree without the kid under `s`. */
  function Without(l: Layout, s: Segment): Layout {
    Layout(l.slot, l.kids - {s})
  }

  lemma WithoutIsSeparated(l: Layout, s: Segment)
    requires Separated(l)
    ensures Separated(Without(l, s)) && Footprint(Without(l, s)) <= Footprint(l)
  {
    var m := Without(l, s);
    forall n | n in Footprint(m) && n != l.slot ensures n in Footprint(l) {
      var t :| t in m.kids && n in Footprint(m.kids[t]);
      assert t in l.kids && l.kids[t] == m.kids[t];
    }
    forall t | t in m.kids ensures Separated(m.kids[t]) && m.slot !in Footprint(m.kids[t]) {
      assert m.kids[t] == l.kids[t];
    }
    forall t, u | t in m.kids && u in m.kids && t != u ensures Footprint(m.kids[t]) !! Footprint(m.kids[u]) {
      assert m.kids[t] == l.kids[t] && m.kids[u] == l.kids[u];
    }
  }

  lemma WithoutSplits(l: Layout, s: Segment)
    requires Separated(l) && s in l.kids
    ensures l == Gains(Without(l, s), s, l.kids[s])
    ensures Footprint(l) == Footprint(Without(l, s)) + Footprint(l.kids[s])
    ensures Footprint(Without(l, s)) !! Footprint(l.kids[s])
  {
    var m := Without(l, s);
    assert l.kids == m.kids[s := l.kids[s]];
    GainsFootprint(m, s, l.kids[s]);
    forall n | n in Footprint(m) ensures n !in Footprint(l.kids[s]) {
      if n != l.slot {
        var t :| t in m.kids && n in Footprint(m.kids[t]);
        assert t in l.kids && l.kids[t] == m.kids[t];
      }
    }
  }

  lemma HoldsWithout(l: Layout, v: Value, s: Segment)
    requires Holds(l, v)
    ensures HoldsExcept(Without(l, s), v, s)
  {}

  lemma HoldsExceptWith(l: Layout, o: Value, s: Segment, c: Value)
    requires HoldsExcept(l, o, s) && Child(o, s).Some?
    ensures HoldsExcept(l, WithChild(o, s, c), s)
  {
    var v := WithChild(o, s, c);
    assert forall t :: t != s ==> Child(v, t) == Child(o, t);
  }

  // ---------- where the reference came from ----------

  /** The containers above the current slot, innermost first; each lacks the
    * kid the walk went into. */
  datatype Trail = Top | Down(up: Trail, l: Layout, o: Value, s: Segment)

  ghost function TrailFootprint(t: Trail): set<Slot> {
    match t
    case Top => {}
    case Down(up, l, _, _) => TrailFootprint(up) + Footprint(l)
  }

  lemma TrailIsAllocated(t: Trail)
    ensures forall n :: n in TrailFootprint(t) ==> allocated(n)
  {
    match t
    case Top =>
    case Down(up, l, _, _) =>
      FootprintIsAllocated(l);
      TrailIsAllocated(up);
  }

  ghost predicate TrailSeparated(t: Trail) {
    match t
    case Top => true
    case Down(up, l, _, _) => TrailSeparated(up) && Separated(l) && Footprint(l) !! TrailFootprint(up)
  }

  ghost predicate TrailHolds(t: Trail, root: Slot, hole: Slot)
    reads TrailFootprint(t)
  {
    match t
    case Top => hole == root
    case Down(up, l, o, s) =>
      TrailHolds(up, root, l.slot) && HoldsExcept(l, o, s) &&
      Child(o, s).Some? && Sub(l.slot.shape, s) == Some(hole)
  }

  ghost predicate TrailFits(t: Trail) {
    match t
    case Top => true
    case Down(up, _, o, s) => TrailFits(up) && Child(o, s).Some?
  }

  /** The whole value, given what the current slot holds. */
  ghost function Plug(t: Trail, v: Value): Value
    requires TrailFits(t)
  {
    match t
    case Top => v
    case Down(up, _, o, s) => Plug(up, WithChild(o, s, v))
  }

  ghost function PlugLayout(t: Trail, l: Layout): Layout {
    match t
    case Top => l
    case Down(up, m, _, s) => PlugLayout(up, Gains(m, s, l))
  }

  /** When the walk ends, the trail and the current tree make up the whole tree. */
  lemma {:induction false} EndOfBorrow(t: Trail, root: Slot, l: Layout, v: Value)
    requires TrailHolds(t, root, l.slot) && TrailSeparated(t) && TrailFits(t)
    requires Owns(l, l.slot, v) && Footprint(l) !! TrailFootprint(t)
    ensures Footprint(PlugLayout(t, l)) == Footprint(l) + TrailFootprint(t)
    ensures Owns(PlugLayout(t, l), root, Plug(t, v))
    decreases t
  {
    hide Separated, Footprint;
    match t
    case Top =>
      assert PlugLayout(t, l) == l;
    case Down(up, m, o, s) =>
      GainsFootprint(m, s, l);
      GainsSeparated(m, s, l);
      HoldsExceptWith(m, o, s, v);
      GainsHolds(m, WithChild(o, s, v), s, l);
      EndOfBorrow(up, root, Gains(m, s, l), WithChild(o, s, v));
  }

  lemma RootOfTree(l: Layout, slot: Slot, v: Value)
    requires Owns(l, slot, v)
    ensures l.slot == slot && slot in Footprint(l)
  {}

  // ---------- one step down ----------

  /** The value as a container of the segment's kind, as it was or emptied. */
  function Container(v: Value, s: Segment): Value {
    if s.Key? then Object(FieldsOf(v)) else Array(ItemsOf(v))
  }

  method MakeContainer(current: Slot, s: Segment, ghost l: Layout, ghost v: Value) returns (ghost m: Layout)
    requires Owns(l, current, v)
    modifies current
    ensures Owns(m, current, Container(v, s)) && Footprint(m) <= Footprint(l)
  {
    m := l;
    match s
    case Key(_) =>
      if !current.shape.Fields? {
        current.shape := Fields(map[]);
        m := Layout(current, map[]);
      }
    case Index(_) =>
      if !current.shape.List? {
        current.shape := List([]);
        m := Layout(current, map[]);
      }
  }

  /** The slots of the kids. */
  ghost function Below(l: Layout): set<Slot> {
    set s, n | s in l.kids && n in Footprint(l.kids[s]) :: n
  }

  /** The kids hold what `v` has everywhere but under `s`. */
  ghost predicate KidsHold(l: Layout, v: Value, s: Segment)
    reads Below(l)
  {
    && (forall t :: t in l.kids <==> t != s && Child(v, t).Some?)
    && (forall t :: t in l.kids ==> Child(v, t).Some? && Holds(l.kids[t], Child(v, t).value))
  }

  /** The container's slot is none of its kids', so writing it leaves them as they are. */
  lemma BeforeTheWrite(l: Layout, o: Value, s: Segment, shape: Shape, r: Value)
    requires Separated(l) && HoldsExcept(l, o, s)
    requires forall t :: t != s ==> Sub(shape, t) == Sub(l.slot.shape, t) && Child(r, t) == Child(o, t)
    ensures l.slot !in Below(l) && KidsHold(l, r, s)
    ensures s !in l.kids && forall t :: t in l.kids ==> Sub(shape, t) == Some(l.kids[t].slot)
  {}

  lemma AfterTheWrite(l: Layout, r: Value, s: Segment)
    requires KidsHold(l, r, s) && SameForm(l.slot.shape, r) && s !in l.kids
    requires forall t :: t in l.kids ==> Sub(l.slot.shape, t) == Some(l.kids[t].slot)
    ensures HoldsExcept(l, r, s)
  {}

  /** Hang the tree `kid` under `s`, in place of whatever was there; `shape` is
    * the container's shape after the write. */
  method Hang(current: Slot, s: Segment, shape: Shape, ghost l: Layout, ghost o: Value, ghost kid: Layout,
      ghost c: Value, ghost r: Value)
    returns (ghost m: Layout)
    requires Owns(l, current, o) && Owns(kid, kid.slot, c) && Footprint(l) !! Footprint(kid)
    requires SameForm(shape, r) && Sub(shape, s) == Some(kid.slot) && Child(r, s) == Some(c)
    requires forall t :: t != s ==> Sub(shape, t) == Sub(current.shape, t) && Child(r, t) == Child(o, t)
    modifies current
    ensures current.shape == shape
    ensures Owns(m, current, r) && Footprint(m) <= Footprint(l) + Footprint(kid)
  {
    hide Holds, HoldsExcept, Separated, Footprint, Below, KidsHold, SameForm;
    ghost var w := Without(l, s);
    RootOfTree(l, current, o);
    WithoutIsSeparated(l, s);
    HoldsWithout(l, o, s);
    BeforeTheWrite(w, o, s, shape, r);
    current.shape := shape;
    AfterTheWrite(w, r, s);
    GainsFootprint(w, s, kid);
    GainsSeparated(w, s, kid);
    GainsHolds(w, r, s, kid);
    m := Gains(w, s, kid);
  }

  /** `map.insert(key, kid)`. */
  method InsertKey(current: Slot, k: string, kid: Slot, ghost l: Layout, ghost o: Value, ghost kl: Layout,
      ghost c: Value)
    returns (ghost m: Layout)
    requires Owns(l, current, o) && Owns(kl, kid, c) && Footprint(l) !! Footprint(kl) && o.Object?
    modifies current
    ensures current.shape.Fields? && Sub(current.shape, Key(k)) == Some(kid)
    ensures Owns(m, current, Object(o.fields[k := c])) && Footprint(m) <= Footprint(l) + Footprint(kl)
  {
    m := Hang(current, Key(k), Fields(current.shape.table[k := kid]), l, o, kl, c, Object(o.fields[k := c]));
  }

  /** `arr[idx] = kid`. */
  method StoreIndex(current: Slot, i: nat, kid: Slot, ghost l: Layout, ghost o: Value, ghost kl: Layout, ghost c: Value)
    returns (ghost m: Layout)
    requires Owns(l, current, o) && Owns(kl, kid, c) && Footprint(l) !! Footprint(kl) && o.Array? && i < |o.items|
    modifies current
    ensures Owns(m, current, Array(o.items[i := c])) && Footprint(m) <= Footprint(l) + Footprint(kl)
  {
    m := Hang(current, Index(i), List(current.shape.slots[i := kid]), l, o, kl, c, Array(o.items[i := c]));
  }

  /** `while arr.len() <= idx { arr.push(Null) }`. */
  method PadList(current: Slot, i: nat, ghost l: Layout, ghost o: Value) returns (ghost m: Layout)
    requires Owns(l, current, o) && o.Array?
    modifies current
    ensures Owns(m, current, Opened(o, Index(i)))
    ensures forall n :: n in Footprint(m) ==> n in Footprint(l) || fresh(n)
  {
    m := l;
    ghost var items := o.items;
    while |current.shape.slots| <= i
      invariant Owns(m, current, Array(items))
      invariant forall n :: n in Footprint(m) ==> n in Footprint(l) || fresh(n)
      invariant |o.items| <= |items| && (|items| <= i + 1 || items == o.items)
      invariant forall j :: 0 <= j < |items| ==> items[j] == if j < |o.items| then o.items[j] else Null
      decreases i - |items|
    {
      FootprintIsAllocated(m);
      var n := new Slot(Scalar(Null));
      ScalarOwned(n, Null);
      m := Hang(current, Index(|current.shape.slots|), List(current.shape.slots + [n]),
                m, Array(items), Layout(n, map[]), Null, Array(items + [Null]));
      items := items + [Null];
    }
    assert items == Pad(o.items, i + 1);
  }

  /** `map.entry(key).or_insert(Null)`. */
  method EntryOrNull(current: Slot, k: string, ghost l: Layout, ghost o: Value) returns (ghost m: Layout)
    requires Owns(l, current, o) && o.Object?
    modifies current
    ensures Owns(m, current, Opened(o, Key(k)))
    ensures forall n :: n in Footprint(m) ==> n in Footprint(l) || fresh(n)
  {
    m := l;
    if k !in current.shape.table {
      FootprintIsAllocated(m);
      var n := new Slot(Scalar(Null));
      ScalarOwned(n, Null);
      m := InsertKey(current, k, n, l, o, Layout(n, map[]), Null);
    }
  }

  /** The walk is at `current`: what is below it, and how it hangs in the whole. */
  ghost predicate Walking(t: Trail, root: Slot, current: Slot, l: Layout, v: Value)
    reads Footprint(l), TrailFootprint(t)
  {
    && TrailHolds(t, root, current) && TrailSeparated(t) && TrailFits(t)
    && Owns(l, current, v) && Footprint(l) !! TrailFootprint(t)
  }

  ghost function Whole(t: Trail, l: Layout): set<Slot> {
    Footprint(l) + TrailFootprint(t)
  }

  /** The reference moves to the slot under `s`. */
  lemma Descend(t: Trail, root: Slot, l: Layout, v: Value, s: Segment)
    requires Walking(t, root, l.slot, l, v) && Child(v, s).Some?
    ensures s in l.kids && Sub(l.slot.shape, s) == Some(l.kids[s].slot)
    ensures Walking(Down(t, Without(l, s), v, s), root, l.kids[s].slot, l.kids[s], Child(v, s).value)
    ensures Whole(Down(t, Without(l, s), v, s), l.kids[s]) == Whole(t, l)
  {
    WithoutIsSeparated(l, s);
    WithoutSplits(l, s);
    HoldsWithout(l, v, s);
  }

  lemma OpenedContainer(v: Value, s: Segment)
    ensures Opened(Container(v, s), s) == Opened(v, s)
    ensures if s.Key? then Container(v, s).Object? else Container(v, s).Array?
  {}

  /** Make `current` a container of the segment's kind with room for it. */
  method Open(current: Slot, s: Segment, ghost l: Layout, ghost v: Value) returns (ghost m: Layout)
    requires Owns(l, current, v)
    modifies current
    ensures Owns(m, current, Opened(v, s))
    ensures forall n :: n in Footprint(m) ==> n in Footprint(l) || fresh(n)
  {
    hide *;
    ghost var c := MakeContainer(current, s, l, v);
    OpenedContainer(v, s);
    match s {
      case Key(k) => m := EntryOrNull(current, k, c, Container(v, s));
      case Index(n) => m := PadList(current, n, c, Container(v, s));
    }
  }

  lemma FilledIs(o: Value, s: Segment, c: Value)
    requires if s.Key? then o.Object? else o.Array?
    ensures Child(Opened(o, s), s).Some?
    ensures match s
            case Key(k) => WithChild(Opened(o, s), s, c) == Object(o.fields[k := c])
            case Index(i) => Opened(o, s).Array? && i < |Opened(o, s).items| &&
                             WithChild(Opened(o, s), s, c) == Array(Opened(o, s).items[i := c])
  {
    if s.Key? {
      assert Opened(o, s).fields[s.key := c] == o.fields[s.key := c];
    }
  }

  /** A segment before the last: open the container and move into it. */
  method StepInto(root: Slot, current: Slot, s: Segment, ghost t: Trail, ghost l: Layout, ghost v: Value)
    returns (next: Slot, ghost t': Trail, ghost l': Layout)
    requires Walking(t, root, current, l, v)
    modifies current
    ensures t'.Down? && t'.up == t && t'.o == Opened(v, s) && t'.s == s
    ensures Walking(t', root, next, l', Child(Opened(v, s), s).value)
    ensures forall n :: n in Whole(t', l') ==> n in Whole(t, l) || fresh(n)
  {
    RootOfTree(l, current, v);
    FootprintIsAllocated(l);
    TrailIsAllocated(t);
    ghost var m := Open(current, s, l, v);
    Descend(t, root, m, Opened(v, s), s);
    next := Sub(current.shape, s).value;
    t', l' := Down(t, Without(m, s), Opened(v, s), s), m.kids[s];
  }

  /** The last segment: put the moved tree in the container. */
  method Insert(current: Slot, s: Segment, x: Slot, ghost l: Layout, ghost v: Value, ghost xl: Layout, ghost xv: Value)
    returns (ghost m: Layout)
    requires Owns(l, current, v) && Owns(xl, x, xv) && Footprint(l) !! Footprint(xl)
    modifies current
    ensures Owns(m, current, WithChild(Opened(v, s), s, xv))
    ensures forall n :: n in Footprint(m) ==> n in Footprint(l) || n in Footprint(xl) || fresh(n)
  {
    hide *;
    RootOfTree(l, current, v);
    FootprintIsAllocated(xl);
    OpenedContainer(v, s);
    match s {
      case Key(k) =>
        m := MakeContainer(current, s, l, v);
        assert Owns(xl, x, xv);
        FilledIs(Container(v, s), s, xv);
        m := InsertKey(current, k, x, m, Container(v, s), xl, xv);
      case Index(n) =>
        m := Open(current, s, l, v);
        assert Owns(xl, x, xv);
        FilledIs(Container(v, s), s, xv);
        m := StoreIndex(current, n, x, m, Opened(v, s), xl, xv);
    }
  }

  method FinishAt(root: Slot, current: Slot, s: Segment, x: Slot, ghost t: Trail, ghost l: Layout, ghost v: Value,
      ghost xl: Layout, ghost xv: Value)
    returns (ghost r: Layout)
    requires Walking(t, root, current, l, v) && Owns(xl, x, xv) && Whole(t, l) !! Footprint(xl)
    modifies current
    ensures TrailFits(t) && Owns(r, root, Plug(t, WithChild(Opened(v, s), s, xv)))
    ensures forall n :: n in Footprint(r) ==> n in Whole(t, l) || n in Footprint(xl) || fresh(n)
  {
    RootOfTree(l, current, v);
    TrailIsAllocated(t);
    ghost var m := Insert(current, s, x, l, v, xl, xv);
    EndOfBorrow(t, root, m, WithChild(Opened(v, s), s, xv));
    r := PlugLayout(t, m);
  }

  /** `*self = value`: the root takes over the contents of the moved value. */
  lemma MovedIntoOwns(root: Slot, xl: Layout, xv: Value)
    requires Owns(xl, xl.slot, xv) && root !in Footprint(xl) && root.shape == xl.slot.shape
    ensures Owns(Layout(root, xl.kids), root, xv) && Footprint(Layout(root, xl.kids)) <= {root} + Footprint(xl)
  {
    forall s | s in xl.kids ensures Footprint(xl.kids[s]) <= Footprint(xl) {
      KidFootprint(xl, s);
    }
  }

  /** `set_path`, in place. `x` is the tree moved in at the end of the path.
    * Returns false when collecting the segments never returns. */
  method SetPath(root: Slot, path: string, x: Slot, ghost l: Layout, ghost v: Value, ghost xl: Layout, ghost xv: Value)
    returns (returned: bool, ghost r: Layout)
    requires Owns(l, root, v) && Owns(xl, x, xv) && Footprint(l) !! Footprint(xl)
    modifies Footprint(l)
    ensures returned <==> PathEngine.Write(v, path, xv).Some?
    ensures Owns(r, root, if returned then PathEngine.Write(v, path, xv).value else v)
    ensures forall n :: n in Footprint(r) ==> n in Footprint(l) || n in Footprint(xl) || fresh(n)
  {
    hide Owns, Holds, Separated, Footprint, PathParser.Unclosed, PathParser.Collect, Put;
    RootOfTree(l, root, v);
    RootOfTree(xl, x, xv);
    FootprintIsAllocated(l);
    FootprintIsAllocated(xl);
    if path == "" {
      root.shape := x.shape;
      MovedIntoOwns(root, xl, xv);
      return true, Layout(root, xl.kids);
    }
    var collected := PathEngine.CollectSegments(path);
    if collected.None? {
      return false, l;
    }
    r := SetSegments(root, collected.value, x, l, v, xl, xv);
    returned := true;
    assert collected == Some(PathParser.Parse(path));
  }

  method SetSegments(root: Slot, segments: Segments, x: Slot, ghost l: Layout, ghost v: Value, ghost xl: Layout,
      ghost xv: Value)
    returns (ghost r: Layout)
    requires Owns(l, root, v) && Owns(xl, x, xv) && Footprint(l) !! Footprint(xl)
    modifies Footprint(l)
    ensures Owns(r, root, if segments == [] then v else Put(v, segments, xv))
    ensures forall n :: n in Footprint(r) ==> n in Footprint(l) || n in Footprint(xl) || fresh(n)
  {
    hide Owns, Holds, Separated, Footprint, Walking, TrailHolds, TrailSeparated, TrailFootprint, Whole, Plug, Put;
    var current := root;
    ghost var here, cur, trail := l, v, Top;
    StartOfBorrow(root, l, v, Put(v, segments, xv));
    FootprintIsAllocated(xl);
    var i := 0;
    while i < |segments|
      invariant i <= |segments| && (i == |segments| ==> segments == [])
      invariant Walking(trail, root, current, here, cur) && Whole(trail, here) !! Footprint(xl)
      invariant forall n :: n in Whole(trail, here) ==> n in Footprint(l) || fresh(n)
      invariant Owns(xl, x, xv)
      invariant TrailFits(trail) && Plug(trail, Put(cur, segments[i..], xv)) == Put(v, segments, xv)
      invariant segments == [] ==> here == l && cur == v && current == root
    {
      var s := segments[i];
      assert segments[i..][1..] == segments[i + 1..];
      PutStep(cur, segments[i..], xv);
      CurrentIsOwned(trail, root, current, here, cur);
      if i == |segments| - 1 {
        r := FinishAt(root, current, s, x, trail, here, cur, xl, xv);
        return;
      }
      ghost var t, o := trail, Opened(cur, s);
      current, trail, here := StepInto(root, current, s, trail, here, cur);
      cur := Child(o, s).value;
      PlugDown(t, trail, Put(cur, segments[i + 1..], xv));
      i := i + 1;
    }
    CurrentIsOwned(trail, root, current, here, cur);
    r := l;
  }

  lemma StartOfBorrow(root: Slot, l: Layout, v: Value, w: Value)
    requires Owns(l, root, v)
    ensures Walking(Top, root, root, l, v) && Whole(Top, l) == Footprint(l) && TrailFits(Top) && Plug(Top, w) == w
  {}

  lemma CurrentIsOwned(t: Trail, root: Slot, current: Slot, l: Layout, v: Value)
    requires Walking(t, root, current, l, v)
    ensures current in Whole(t, l) && TrailFits(t) && Owns(l, current, v)
  {
    RootOfTree(l, current, v);
  }

  lemma PutStep(v: Value, p: Segments, x: Value)
    requires p != []
    ensures Child(Opened(v, p[0]), p[0]).Some?
    ensures Put(v, p, x) == WithChild(Opened(v, p[0]), p[0], Put(Child(Opened(v, p[0]), p[0]).value, p[1..], x))
    ensures |p| == 1 ==> Put(v, p, x) == WithChild(Opened(v, p[0]), p[0], x)
  {}

  lemma PlugDown(t: Trail, u: Trail, c: Value)
    requires TrailFits(t) && u.Down? && u.up == t && Child(u.o, u.s).Some?
    ensures TrailFits(u) && Plug(u, c) == Plug(t, WithChild(u.o, u.s, c))
  {}
}
