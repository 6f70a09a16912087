/** The laws of Get and Put: a lens with an exact frame, and exactly which
  * pairs of writes commute. */
module PathLaws {
  import opened Basics
  import opened Values

  predicate SameKind(s: Segment, t: Segment) {
    s.Key? <==> t.Key?
  }

  /** The first `d` segments agree and the next ones differ. */
  predicate SplitAt(p: Segments, q: Segments, d: nat) {
    d < |p| && d < |q| && p[..d] == q[..d] && p[d] != q[d]
  }

  /** The paths first differ at two segments of the same kind. */
  ghost predicate Diverge(p: Segments, q: Segments) {
    exists d: nat :: SplitAt(p, q, d) && SameKind(p[d], q[d])
  }

  /** The paths first differ at a key against an index. */
  ghost predicate Clash(p: Segments, q: Segments) {
    exists d: nat :: SplitAt(p, q, d) && !SameKind(p[d], q[d])
  }

  // ---------- one level ----------

  lemma ChildFrame(v: Value, s: Segment, t: Segment, c: Value)
    requires s != t && SameKind(s, t)
    ensures Child(WithChild(Opened(v, s), s, c), t) == Child(Opened(v, s), t)
  {}

  lemma OpenTwice(v: Value, s: Segment, c: Value)
    ensures Opened(WithChild(Opened(v, s), s, c), s) == WithChild(Opened(v, s), s, c)
  {}

  // ---------- lens laws ----------

  lemma {:induction false} GetPut(v: Value, p: Segments, x: Value)
    ensures Get(Put(v, p, x), p) == Some(x)
    decreases |p|
  {
    if p != [] {
      GetPut(Child(Opened(v, p[0]), p[0]).value, p[1..], x);
    }
  }

  lemma {:induction false} PutPut(v: Value, p: Segments, x: Value, y: Value)
    ensures Put(Put(v, p, x), p, y) == Put(v, p, y)
    decreases |p|
  {
    if p != [] {
      var o := Opened(v, p[0]);
      var c := Child(o, p[0]).value;
      PutPut(c, p[1..], x, y);
      OpenTwice(v, p[0], Put(c, p[1..], x));
    }
  }

  lemma {:induction false} PutGet(v: Value, p: Segments)
    requires Get(v, p).Some?
    ensures Put(v, p, Get(v, p).value) == v
    decreases |p|
  {
    if p != [] {
      PutGet(Child(v, p[0]).value, p[1..]);
      assert Opened(v, p[0]) == v;
    }
  }

  // ---------- peeling a common first segment ----------

  lemma SplitTail(p: Segments, q: Segments, d: nat)
    requires SplitAt(p, q, d) && d > 0
    ensures p[0] == q[0] && SplitAt(p[1..], q[1..], d - 1)
    ensures p[1..][d - 1] == p[d] && q[1..][d - 1] == q[d]
  {
    assert p[0] == p[..d][0] == q[..d][0] == q[0];
    assert p[1..][..d - 1] == p[..d][1..] == q[..d][1..] == q[1..][..d - 1];
  }

  // ---------- exact frame ----------

  /** The length of the list found at a path, 0 when there is none. */
  function Room(v: Value, p: Segments): nat {
    var at := Get(v, p);
    if at.Some? then |ItemsOf(at.value)| else 0
  }

  /** The slots that padding creates: `q` ends in an index past the end of the
    * list at the common prefix and below the index that `p` writes under. */
  predicate Padding(v: Value, p: Segments, q: Segments, d: nat)
    requires SplitAt(p, q, d)
  {
    p[d].Index? && q[d].Index? && |q| == d + 1 && Room(v, p[..d]) <= q[d].index < p[d].index
  }

  /** The child that opening a container leaves under a segment. */
  function Under(v: Value, s: Segment): Value {
    Child(Opened(v, s), s).value
  }

  lemma UnderIs(v: Value, s: Segment)
    ensures Under(v, s) == if Child(v, s).Some? then Child(v, s).value else Null
  {}

  lemma GetUnder(v: Value, q: Segments)
    requires q != []
    ensures |q| > 1 ==> Get(v, q) == Get(Under(v, q[0]), q[1..])
    ensures Room(v, q) == Room(Under(v, q[0]), q[1..])
  {
    UnderIs(v, q[0]);
    if |q| == 1 {
      assert q[1..] == [];
    }
  }

  lemma GetPutTail(v: Value, p: Segments, q: Segments, x: Value)
    requires p != [] && q != [] && p[0] == q[0]
    ensures Get(Put(v, p, x), q) == Get(Put(Under(v, p[0]), p[1..], x), q[1..])
  {}

  lemma FrameHere(v: Value, p: Segments, q: Segments, x: Value)
    requires SplitAt(p, q, 0) && SameKind(p[0], q[0])
    ensures Get(Put(v, p, x), q) == if Padding(v, p, q, 0) then Some(Null) else Get(v, q)
    ensures Padding(v, p, q, 0) ==> Get(v, q) == None
  {
    hide Opened, WithChild;
    ChildFrame(v, p[0], q[0], Put(Under(v, p[0]), p[1..], x));
    OpenedBeside(v, p[0], q[0]);
    assert p[..0] == [];
    assert |q| == 1 <==> q[1..] == [];
  }

  lemma OpenedBeside(v: Value, s: Segment, t: Segment)
    requires s != t && SameKind(s, t)
    ensures Child(Opened(v, s), t) ==
              if s.Index? && |ItemsOf(v)| <= t.index < s.index then Some(Null) else Child(v, t)
  {}

  /** Reading a path that diverges from the one written: what was there before,
    * except for the Null slots that padding creates. */
  lemma {:induction false} Frame(v: Value, p: Segments, q: Segments, d: nat, x: Value)
    requires SplitAt(p, q, d) && SameKind(p[d], q[d])
    ensures Get(Put(v, p, x), q) == if Padding(v, p, q, d) then Some(Null) else Get(v, q)
    ensures Padding(v, p, q, d) ==> Get(v, q) == None
    decreases d
  {
    if d == 0 {
      FrameHere(v, p, q, x);
    } else {
      SplitTail(p, q, d);
      GetPutTail(v, p, q, x);
      Frame(Under(v, p[0]), p[1..], q[1..], d - 1, x);
      GetUnder(v, q);
      GetUnder(v, p[..d]);
      assert p[..d][1..] == p[1..][..d - 1];
    }
  }

  /** So a path that resolved keeps its value, and a diverging path that only
    * resolves after the write holds Null. */
  lemma DivergentPathsKeepTheirValues(v: Value, p: Segments, q: Segments, x: Value)
    requires Diverge(p, q)
    ensures Get(v, q).Some? ==> Get(Put(v, p, x), q) == Get(v, q)
    ensures Get(v, q).None? && Get(Put(v, p, x), q).Some? ==> Get(Put(v, p, x), q) == Some(Null)
    ensures IntegerOf(Get(Put(v, p, x), q)) == IntegerOf(Get(v, q))
  {
    var d: nat :| SplitAt(p, q, d) && SameKind(p[d], q[d]);
    Frame(v, p, q, d, x);
  }

  // ---------- commutation ----------

  lemma WritesApart(v: Value, p: Segments, q: Segments, x: Value, y: Value)
    requires SplitAt(p, q, 0) && SameKind(p[0], q[0])
    ensures Put(Put(v, p, x), q, y) == Put(Put(v, q, y), p, x)
  {
    var cx := Put(Under(v, p[0]), p[1..], x);
    var cy := Put(Under(v, q[0]), q[1..], y);
    UnderApart(v, p[0], q[0], cx);
    UnderApart(v, q[0], p[0], cy);
    WithChildApart(v, p[0], q[0], cx, cy);
  }

  lemma UnderApart(v: Value, s: Segment, t: Segment, c: Value)
    requires s != t && SameKind(s, t)
    ensures Under(WithChild(Opened(v, s), s, c), t) == Under(v, t)
  {
    ChildFrame(v, s, t, c);
    UnderIs(v, t);
  }

  lemma WithChildApart(v: Value, s: Segment, t: Segment, c: Value, d: Value)
    requires s != t && SameKind(s, t)
    ensures WithChild(Opened(WithChild(Opened(v, s), s, c), t), t, d)
         == WithChild(Opened(WithChild(Opened(v, t), t, d), s), s, c)
  {
    hide Pad;
    if s.Key? {
      KeysApart(FieldsOf(v), s.key, t.key, c, d);
    } else {
      ItemsApart(ItemsOf(v), s.index, t.index, c, d);
    }
  }

  lemma KeysApart(fields: map<string, Value>, k: string, l: string, c: Value, d: Value)
    requires k != l
    ensures fields[k := c][l := d] == fields[l := d][k := c]
  {}

  lemma ItemsApart(items: seq<Value>, i: nat, j: nat, c: Value, d: Value)
    requires i != j
    ensures Pad(Pad(items, i + 1)[i := c], j + 1)[j := d] == Pad(Pad(items, j + 1)[j := d], i + 1)[i := c]
  {
    var l := Pad(Pad(items, i + 1)[i := c], j + 1)[j := d];
    var r := Pad(Pad(items, j + 1)[j := d], i + 1)[i := c];
    assert |l| == |r|;
    assert forall k :: 0 <= k < |l| ==> l[k] == r[k];
  }

  lemma PutTwiceTail(v: Value, p: Segments, q: Segments, x: Value, y: Value)
    requires p != [] && q != [] && p[0] == q[0]
    ensures Put(Put(v, p, x), q, y)
         == WithChild(Opened(v, p[0]), p[0], Put(Put(Under(v, p[0]), p[1..], x), q[1..], y))
  {
    var c := Put(Under(v, p[0]), p[1..], x);
    OpenTwice(v, p[0], c);
  }

  lemma {:induction false} DivergentWritesCommute(v: Value, p: Segments, q: Segments, d: nat, x: Value, y: Value)
    requires SplitAt(p, q, d) && SameKind(p[d], q[d])
    ensures Put(Put(v, p, x), q, y) == Put(Put(v, q, y), p, x)
    decreases d
  {
    if d == 0 {
      WritesApart(v, p, q, x, y);
    } else {
      SplitTail(p, q, d);
      DivergentWritesCommute(Under(v, p[0]), p[1..], q[1..], d - 1, x, y);
      PutTwiceTail(v, p, q, x, y);
      PutTwiceTail(v, q, p, y, x);
    }
  }

  lemma PutKind(v: Value, p: Segments, x: Value)
    requires p != []
    ensures if p[0].Key? then Put(v, p, x).Object? else Put(v, p, x).Array?
  {}

  lemma ChildOfWith(o: Value, s: Segment, c: Value)
    requires Child(o, s).Some?
    ensures Child(WithChild(o, s, c), s) == Some(c)
  {}

  lemma ClashHere(v: Value, p: Segments, q: Segments, x: Value, y: Value)
    requires p != [] && q != [] && !SameKind(p[0], q[0])
    ensures Put(Put(v, p, x), q, y) != Put(Put(v, q, y), p, x)
  {
    PutKind(Put(v, p, x), q, y);
    PutKind(Put(v, q, y), p, x);
  }

  /** Where a key meets an index the later write replaces the earlier container. */
  lemma {:induction false} ClashingWritesNeverCommute(v: Value, p: Segments, q: Segments, d: nat, x: Value, y: Value)
    requires SplitAt(p, q, d) && !SameKind(p[d], q[d])
    ensures Put(Put(v, p, x), q, y) != Put(Put(v, q, y), p, x)
    decreases d
  {
    if d == 0 {
      ClashHere(v, p, q, x, y);
    } else {
      SplitTail(p, q, d);
      ClashingWritesNeverCommute(Under(v, p[0]), p[1..], q[1..], d - 1, x, y);
      PutTwiceTail(v, p, q, x, y);
      PutTwiceTail(v, q, p, y, x);
      ChildOfWith(Opened(v, p[0]), p[0], Put(Put(Under(v, p[0]), p[1..], x), q[1..], y));
      ChildOfWith(Opened(v, p[0]), p[0], Put(Put(Under(v, p[0]), q[1..], y), p[1..], x));
    }
  }

  predicate IsPrefix(p: Segments, q: Segments) {
    |p| <= |q| && q[..|p|] == p
  }

  /** Writing below a path just written edits the value written there. */
  lemma {:induction false} PutBelow(v: Value, p: Segments, q: Segments, x: Value, y: Value)
    requires IsPrefix(p, q)
    ensures Put(Put(v, p, x), q, y) == Put(v, p, Put(x, q[|p|..], y))
    decreases |p|
  {
    if p != [] {
      assert p[0] == q[..|p|][0] == q[0];
      assert q[1..][..|p| - 1] == q[..|p|][1..];
      PutBelow(Under(v, p[0]), p[1..], q[1..], x, y);
      PutTwiceTail(v, p, q, x, y);
    }
  }

  /** Writing above a path just written forgets it. */
  lemma {:induction false} PutAbove(v: Value, p: Segments, q: Segments, x: Value, y: Value)
    requires IsPrefix(p, q)
    ensures Put(Put(v, q, y), p, x) == Put(v, p, x)
    decreases |p|
  {
    if p != [] {
      assert p[0] == q[..|p|][0] == q[0];
      assert q[1..][..|p| - 1] == q[..|p|][1..];
      PutAbove(Under(v, p[0]), p[1..], q[1..], x, y);
      PutTwiceTail(v, q, p, y, x);
    }
  }

  lemma NestedWritesCommute(v: Value, p: Segments, q: Segments, x: Value, y: Value)
    requires IsPrefix(p, q)
    ensures Put(Put(v, p, x), q, y) == Put(Put(v, q, y), p, x) <==> Get(x, q[|p|..]) == Some(y)
  {
    PutBelow(v, p, q, x, y);
    PutAbove(v, p, q, x, y);
    var rest := q[|p|..];
    if Get(x, rest) == Some(y) {
      PutGet(x, rest);
    }
    if Put(v, p, Put(x, rest, y)) == Put(v, p, x) {
      GetPut(v, p, x);
      GetPut(v, p, Put(x, rest, y));
      GetPut(x, rest, y);
    }
  }

  lemma {:induction false} AnyTwoPathsCompare(p: Segments, q: Segments)
    ensures Diverge(p, q) || Clash(p, q) || IsPrefix(p, q) || IsPrefix(q, p)
    decreases |p|
  {
    if p != [] && q != [] {
      if p[0] != q[0] {
        assert SplitAt(p, q, 0);
      } else {
        AnyTwoPathsCompare(p[1..], q[1..]);
        if d: nat :| SplitAt(p[1..], q[1..], d) {
          assert p[..d + 1] == [p[0]] + p[1..][..d];
          assert q[..d + 1] == [q[0]] + q[1..][..d];
          assert SplitAt(p, q, d + 1);
        } else if IsPrefix(p[1..], q[1..]) {
          assert q[..|p|] == [q[0]] + q[1..][..|p| - 1];
        } else {
          assert p[..|q|] == [p[0]] + p[1..][..|q| - 1];
        }
      }
    }
  }

  /** Exactly when two writes commute, from every starting value: the paths
    * diverge at a same-kind segment, or one is a prefix of the other and the
    * value written at the shorter already holds the other value. */
  ghost predicate Independent(p: Segments, x: Value, q: Segments, y: Value) {
    || Diverge(p, q)
    || (IsPrefix(p, q) && Get(x, q[|p|..]) == Some(y))
    || (IsPrefix(q, p) && Get(y, p[|q|..]) == Some(x))
  }

  lemma WritesCommuteIff(v: Value, p: Segments, q: Segments, x: Value, y: Value)
    ensures Put(Put(v, p, x), q, y) == Put(Put(v, q, y), p, x) <==> Independent(p, x, q, y)
  {
    AnyTwoPathsCompare(p, q);
    if Diverge(p, q) {
      var d: nat :| SplitAt(p, q, d) && SameKind(p[d], q[d]);
      DivergentWritesCommute(v, p, q, d, x, y);
    } else if Clash(p, q) {
      var d: nat :| SplitAt(p, q, d) && !SameKind(p[d], q[d]);
      ClashingWritesNeverCommute(v, p, q, d, x, y);
      SplitIsNoPrefix(p, q, d);
    } else if IsPrefix(p, q) {
      NestedWritesCommute(v, p, q, x, y);
      if IsPrefix(q, p) {
        assert p == q;
      }
    } else {
      NestedWritesCommute(v, q, p, y, x);
    }
  }

  lemma SplitIsNoPrefix(p: Segments, q: Segments, d: nat)
    requires SplitAt(p, q, d)
    ensures !IsPrefix(p, q) && !IsPrefix(q, p)
  {}

  // ---------- many writes ----------

  datatype Write = Write(path: Segments, value: Value)

  function PutAll(v: Value, ws: seq<Write>): Value
    decreases |ws|
  {
    if ws == [] then v else PutAll(Put(v, ws[0].path, ws[0].value), ws[1..])
  }

  /** No two of the writes interfere. */
  ghost predicate Apart(ws: seq<Write>) {
    forall i, j :: 0 <= i < j < |ws| ==> Diverge(ws[i].path, ws[j].path)
  }

  /** A write that diverges from all the earlier ones might as well have come first. */
  lemma {:induction false} MoveToFront(v: Value, ws: seq<Write>, i: nat)
    requires i < |ws| && Apart(ws)
    ensures PutAll(v, ws) == PutAll(v, [ws[i]] + ws[..i] + ws[i + 1..])
    decreases i
  {
    hide Put, Diverge, PutAll;
    if i == 0 {
      assert [ws[0]] + ws[..0] + ws[1..] == ws;
    } else {
      var w, first := ws[i], ws[0];
      var before, after := ws[1..i], ws[i + 1..];
      assert ws == [first] + (before + [w] + after);
      assert ws[1..] == before + [w] + after && ws[1..][..i - 1] == before && ws[1..][i..] == after;
      FirstThen(v, first, ws[1..]);
      ApartRest(ws, 0);
      MoveToFront(Put(v, first.path, first.value), ws[1..], i - 1);
      FirstThen(Put(v, first.path, first.value), w, before + after);
      assert [w] + before + after == [w] + (before + after);
      DivergingCommute(v, first, w);
      FirstThen(Put(v, w.path, w.value), first, before + after);
      FirstThen(v, w, [first] + (before + after));
      assert [w] + ws[..i] + after == [w] + ([first] + (before + after));
    }
  }

  lemma DivergingCommute(v: Value, a: Write, b: Write)
    requires Diverge(a.path, b.path)
    ensures Put(Put(v, a.path, a.value), b.path, b.value) == Put(Put(v, b.path, b.value), a.path, a.value)
  {
    WritesCommuteIff(v, a.path, b.path, a.value, b.value);
  }

  lemma RestIsPermuted<T>(w: T, rest: seq<T>, a: seq<T>, b: seq<T>)
    requires multiset([w] + rest) == multiset(a + [w] + b)
    ensures multiset(rest) == multiset(a + b)
  {
    var all := multiset([w] + rest);
    assert all - multiset{w} == multiset(rest);
    assert all == multiset(a) + multiset{w} + multiset(b);
    assert all - multiset{w} == multiset(a) + multiset(b);
  }

  lemma ApartRest(us: seq<Write>, i: nat)
    requires i < |us| && Apart(us)
    ensures Apart(us[..i] + us[i + 1..]) && Apart(us[1..])
  {
    hide Diverge;
    var rest := us[..i] + us[i + 1..];
    forall j, k | 0 <= j < k < |rest| ensures Diverge(rest[j].path, rest[k].path) {
      var j', k' := if j < i then j else j + 1, if k < i then k else k + 1;
      assert rest[j] == us[j'] && rest[k] == us[k'];
    }
    forall j, k | 0 <= j < k < |us| - 1 ensures Diverge(us[1..][j].path, us[1..][k].path) {
      assert us[1..][j] == us[j + 1] && us[1..][k] == us[k + 1];
    }
  }

  /** Writes to mutually diverging paths give the same document in every order. */
  lemma {:induction false} AnyOrderGivesTheSame(v: Value, ws: seq<Write>, us: seq<Write>)
    requires Apart(ws) && Apart(us) && multiset(ws) == multiset(us)
    ensures PutAll(v, ws) == PutAll(v, us)
    decreases |ws|
  {
    hide Put, Diverge, PutAll, Apart;
    if ws == [] {
      assert us == [];
    } else {
      var w := ws[0];
      assert w in multiset(us);
      var i :| 0 <= i < |us| && us[i] == w;
      MoveToFront(v, us, i);
      var a, b := us[..i], us[i + 1..];
      assert ws == [w] + ws[1..] && us == a + [w] + b;
      RestIsPermuted(w, ws[1..], a, b);
      ApartRest(us, i);
      ApartRest(ws, 0);
      AnyOrderGivesTheSame(Put(v, w.path, w.value), ws[1..], a + b);
      FirstThen(v, w, a + b);
      FirstThen(v, w, ws[1..]);
      assert [w] + a + b == [w] + (a + b);
    }
  }

  lemma FirstThen(v: Value, w: Write, ws: seq<Write>)
    ensures PutAll(v, [w] + ws) == PutAll(Put(v, w.path, w.value), ws)
  {
    assert ([w] + ws)[1..] == ws;
  }
}
