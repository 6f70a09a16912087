/** The path iterator (crates/ussl-core/src/crdt.rs): one activation of `next`
  * at a time, so that the self-call can be seen to make no progress. */
module PathParser {
  import opened Basics
  import opened Values
  import opened Strings
  import Decimal

  /** What one activation of `next` does: finish, yield a segment and move on, or call itself. */
  datatype Turn = Finish | Yield(segment: Segment, pos: nat) | Again(pos: nat)

  /** Where the key starting at `from` ends: at the next '.' or '[', or at the end. */
  function KeyEnd(s: string, from: nat): (i: nat)
    requires from <= |s|
    ensures from <= i <= |s|
    ensures forall k :: from <= k < i ==> s[k] != '.' && s[k] != '['
    ensures i < |s| ==> s[i] == '.' || s[i] == '['
    decreases |s| - from
  {
    if from == |s| || s[from] == '.' || s[from] == '[' then from else KeyEnd(s, from + 1)
  }

  function Activate(path: string, pos: nat): (t: Turn)
    ensures t.Yield? ==> pos < t.pos <= |path|
    ensures t.Again? ==> pos <= t.pos < |path| || pos < t.pos == |path|
  {
    if pos >= |path| then Finish else
    var start := if path[pos] == '.' then pos + 1 else pos;
    if start >= |path| then Finish else
    if path[start] == '[' then
      var close := Find(path, start, ']');
      if close == |path| then Again(start) else
      match Decimal.ParseUnsigned(path[start + 1..close])
      case Some(i) => Yield(Index(i), close + 1)
      case None => Again(close + 1)
    else
      var end := KeyEnd(path, start);
      if end == start then Again(start) else Yield(Key(path[start..end]), end)
  }

  // ---------- termination ----------

  /** Some '[' at or after `from` has no ']' after it. */
  predicate Unclosed(path: string, from: nat) {
    exists i :: from <= i < |path| && path[i] == '[' && NoneAfter(path, i)
  }

  predicate NoneAfter(path: string, i: nat) {
    forall j :: i < j < |path| ==> path[j] != ']'
  }

  /** The first `n` activations all end in a self-call. */
  predicate CallsItself(path: string, pos: nat, n: nat)
    decreases n
  {
    n == 0 || (Activate(path, pos).Again? && CallsItself(path, Activate(path, pos).pos, n - 1))
  }

  datatype Item = Segment(segment: Segment) | End | Stuck

  /** What a call of `next` delivers and where it leaves `pos`; Stuck when it never returns. */
  function Next(path: string, pos: nat): (r: (Item, nat))
    ensures pos <= |path| ==> pos <= r.1 <= |path|
    ensures r.0.Segment? ==> pos < r.1 <= |path|
    decreases |path| - pos
  {
    match Activate(path, pos)
    case Finish => (End, pos)
    case Yield(s, to) => (Segment(s), to)
    case Again(to) => if to == pos then (Stuck, pos) else Next(path, to)
  }

  lemma {:induction false} StuckNeverReturns(path: string, pos: nat, n: nat)
    requires Next(path, pos).0 == Stuck
    ensures CallsItself(path, pos, n)
    decreases n
  {
    if n > 0 {
      StuckNeverReturns(path, Activate(path, pos).pos, n - 1);
    }
  }

  lemma {:induction false} OtherwiseReturns(path: string, pos: nat) returns (n: nat)
    requires Next(path, pos).0 != Stuck
    ensures !CallsItself(path, pos, n)
    decreases |path| - pos
  {
    hide Activate;
    match Activate(path, pos)
    case Again(to) =>
      var m := OtherwiseReturns(path, to);
      n := m + 1;
      assert !CallsItself(path, to, n - 1);
    case _ =>
      n := 1;
  }

  /** Stuck means exactly that the chain of self-calls never ends. */
  lemma StuckIsEndless(path: string, pos: nat)
    ensures Next(path, pos).0 == Stuck <==> forall n: nat :: CallsItself(path, pos, n)
  {
    if Next(path, pos).0 == Stuck {
      forall n: nat ensures CallsItself(path, pos, n) {
        StuckNeverReturns(path, pos, n);
      }
    } else {
      var n := OtherwiseReturns(path, pos);
    }
  }

  /** The segments collected from `pos`, and whether collecting gets stuck after them. */
  datatype Collected = Collected(segments: Segments, stuck: bool)

  function Collect(path: string, pos: nat): (c: Collected)
    ensures |c.segments| <= if pos < |path| then |path| - pos else 0
    decreases |path| - pos
  {
    match Next(path, pos)
    case (End, _) => Collected([], false)
    case (Stuck, _) => Collected([], true)
    case (Segment(s), to) =>
      var rest := Collect(path, to);
      Collected([s] + rest.segments, rest.stuck)
  }

  /** Under closed brackets every activation advances, whether it yields or calls itself. */
  lemma EveryTurnAdvances(path: string, pos: nat)
    requires !Unclosed(path, pos)
    ensures !Activate(path, pos).Finish? ==> pos < Activate(path, pos).pos <= |path|
  {
    UnclosedStaysAhead(path, pos);
  }

  /** One activation keeps an unclosed bracket ahead; only the bracket itself stops it. */
  lemma UnclosedStaysAhead(path: string, pos: nat)
    ensures match Activate(path, pos)
            case Finish => !Unclosed(path, pos)
            case Yield(_, to) => Unclosed(path, pos) <==> Unclosed(path, to)
            case Again(to) => if to == pos then Unclosed(path, pos) else Unclosed(path, pos) <==> Unclosed(path, to)
  {
    match Activate(path, pos)
    case Finish =>
    case Yield(_, to) => SkippedIsClosed(path, pos, to);
    case Again(to) =>
      if to == pos {
        assert path[pos] == '[' && NoneAfter(path, pos);
      } else {
        SkippedIsClosed(path, pos, to);
      }
  }

  lemma SkippedIsClosed(path: string, pos: nat, to: nat)
    requires var t := Activate(path, pos); !t.Finish? && t.pos == to && to > pos
    ensures Unclosed(path, pos) <==> Unclosed(path, to)
  {
    if i :| pos <= i < |path| && path[i] == '[' && NoneAfter(path, i) {
      assert i >= to;
    }
  }

  lemma {:induction false} NextKeepsUnclosed(path: string, pos: nat)
    ensures match Next(path, pos)
            case (Stuck, _) => Unclosed(path, pos)
            case (End, _) => !Unclosed(path, pos)
            case (Segment(_), to) => Unclosed(path, pos) <==> Unclosed(path, to)
    decreases |path| - pos
  {
    UnclosedStaysAhead(path, pos);
    match Activate(path, pos)
    case Again(to) => if to != pos { NextKeepsUnclosed(path, to); }
    case _ =>
  }

  /** Collecting a path returns exactly when every '[' has a later ']'. */
  lemma {:induction false} CollectReturnsIffClosed(path: string, pos: nat)
    ensures Collect(path, pos).stuck <==> Unclosed(path, pos)
    decreases |path| - pos
  {
    NextKeepsUnclosed(path, pos);
    match Next(path, pos)
    case (Segment(_), to) => CollectReturnsIffClosed(path, to);
    case _ =>
  }

  predicate Closed(path: string) {
    !Unclosed(path, 0)
  }

  /** The segments of a path. */
  function Parse(path: string): Segments {
    Collect(path, 0).segments
  }

  // ---------- printing ----------

  predicate PlainKey(k: string) {
    k != [] && forall i :: 0 <= i < |k| ==> k[i] != '.' && k[i] != '['
  }

  /** Segments that can be written in a path: non-empty keys without '.' or '[', 64-bit indices. */
  predicate Writable(s: Segment) {
    match s
    case Key(k) => PlainKey(k)
    case Index(i) => i < TWO_64
  }

  predicate AllWritable(p: Segments) {
    forall i :: 0 <= i < |p| ==> Writable(p[i])
  }

  function PrintOne(s: Segment, first: bool): string {
    match s
    case Key(k) => if first then k else "." + k
    case Index(i) => "[" + Decimal.Print(i) + "]"
  }

  function PrintFrom(p: Segments, first: bool): string {
    if p == [] then "" else PrintOne(p[0], first) + PrintFrom(p[1..], false)
  }

  function Print(p: Segments): string {
    PrintFrom(p, true)
  }

  lemma KeyEndIs(s: string, from: nat, i: nat)
    requires from <= i <= |s| && forall k :: from <= k < i ==> s[k] != '.' && s[k] != '['
    requires i == |s| || s[i] == '.' || s[i] == '['
    ensures KeyEnd(s, from) == i
  {}

  lemma ReadKey(path: string, pos: nat, first: bool, k: string, to: nat)
    requires PlainKey(k)
    requires pos + |PrintOne(Key(k), first)| == to <= |path|
    requires path[pos..to] == PrintOne(Key(k), first)
    requires to < |path| ==> path[to] == '.' || path[to] == '['
    ensures Activate(path, pos) == Yield(Key(k), to)
  {
    hide Find, Decimal.ParseBelow;
    var start := to - |k|;
    assert path[start..to] == path[pos..to][start - pos..] == k;
    assert forall j :: start <= j < to ==> path[j] == path[start..to][j - start];
    KeyEndIs(path, start, to);
    assert first || path[pos] == path[pos..to][0] == '.';
    assert path[start] == k[0];
  }

  lemma ReadIndex(path: string, pos: nat, i: nat, to: nat)
    requires i < TWO_64
    requires pos + |PrintOne(Index(i), false)| == to <= |path|
    requires path[pos..to] == PrintOne(Index(i), false)
    ensures Activate(path, pos) == Yield(Index(i), to)
  {
    var digits := Decimal.Print(i);
    Decimal.ParseOfPrint(i, TWO_64);
    ReadBracket(path, pos, digits, to);
  }

  lemma ReadBracket(path: string, pos: nat, digits: string, to: nat)
    requires Decimal.AllDigits(digits) && Decimal.ParseUnsigned(digits).Some?
    requires pos + |digits| + 2 == to <= |path|
    requires path[pos..to] == "[" + digits + "]"
    ensures Activate(path, pos) == Yield(Index(Decimal.ParseUnsigned(digits).value), to)
  {
    hide KeyEnd, Decimal.ParseBelow, Decimal.Numeral;
    var one := "[" + digits + "]";
    assert path[pos + 1..to - 1] == digits by {
      assert forall j :: 0 <= j < |digits| ==> path[pos + 1 + j] == path[pos..to][1 + j] == digits[j];
    }
    assert path[pos] == path[pos..to][0] == '[';
    assert path[to - 1] == path[pos..to][|one| - 1] == ']';
    forall j | pos <= j < to - 1 ensures path[j] != ']' {
      if j > pos {
        assert path[j] == path[pos + 1..to - 1][j - pos - 1];
        assert Decimal.IsDigit(digits[j - pos - 1]);
      }
    }
    FindIs(path, pos, ']', to - 1);
  }

  /** One segment, read back from the middle of a path. */
  lemma ReadOne(path: string, pos: nat, first: bool, s: Segment, to: nat)
    requires Writable(s)
    requires pos + |PrintOne(s, first)| == to <= |path|
    requires path[pos..to] == PrintOne(s, first)
    requires to < |path| ==> path[to] == '.' || path[to] == '['
    ensures Activate(path, pos) == Yield(s, to)
  {
    match s
    case Key(k) => ReadKey(path, pos, first, k, to);
    case Index(i) => ReadIndex(path, pos, i, to);
  }

  lemma LaterStartsPlain(p: Segments)
    ensures p != [] ==> PrintFrom(p, false) != "" && (PrintFrom(p, false)[0] == '.' || PrintFrom(p, false)[0] == '[')
    ensures p == [] ==> PrintFrom(p, false) == ""
  {}

  lemma {:induction false} CollectOfPrint(path: string, pos: nat, p: Segments, first: bool)
    requires AllWritable(p)
    requires pos <= |path| && path[pos..] == PrintFrom(p, first)
    ensures Collect(path, pos) == Collected(p, false)
    decreases |p|
  {
    hide Activate, Writable, PrintOne;
    if p != [] {
      var one, after := PrintOne(p[0], first), PrintFrom(p[1..], false);
      var to := pos + |one|;
      assert path[pos..to] == path[pos..][..|one|];
      assert path[to..] == path[pos..][|one|..];
      if to < |path| {
        LaterStartsPlain(p[1..]);
        assert path[to] == after[0];
      }
      ReadOne(path, pos, first, p[0], to);
      CollectOfPrint(path, to, p[1..], false);
      assert p == [p[0]] + p[1..];
    }
  }

  /** Printing a list of segments and parsing the text gives the list back; the text is closed. */
  lemma ParseOfPrint(p: Segments)
    requires AllWritable(p)
    ensures Parse(Print(p)) == p && Closed(Print(p))
  {
    CollectOfPrint(Print(p), 0, p, true);
    CollectReturnsIffClosed(Print(p), 0);
  }

  lemma YieldedIsWritable(path: string, pos: nat)
    ensures var t := Activate(path, pos); t.Yield? ==> Writable(t.segment)
  {
    hide KeyEnd, Find, Decimal.Numeral;
    var t := Activate(path, pos);
    if t.Yield? && t.segment.Key? {
      var start := if path[pos] == '.' then pos + 1 else pos;
      var end := KeyEnd(path, start);
      assert t.segment.key == path[start..end];
      assert forall i :: 0 <= i < end - start ==> path[start..end][i] == path[start + i];
    }
  }

  lemma {:induction false} NextIsWritable(path: string, pos: nat)
    ensures var item := Next(path, pos).0; item.Segment? ==> Writable(item.segment)
    decreases |path| - pos
  {
    hide Activate, Writable;
    YieldedIsWritable(path, pos);
    match Activate(path, pos)
    case Again(to) => if to != pos { NextIsWritable(path, to); }
    case _ =>
  }

  lemma {:induction false} CollectedAreWritable(path: string, pos: nat)
    ensures AllWritable(Collect(path, pos).segments)
    decreases |path| - pos
  {
    NextIsWritable(path, pos);
    match Next(path, pos)
    case (Segment(_), to) => CollectedAreWritable(path, to);
    case _ =>
  }

  /** Every path has a canonical spelling with the same segments, and only
    * writable lists are ever parsed: the writable lists are exactly the parses. */
  lemma WritableIffParsed(p: Segments)
    ensures AllWritable(p) <==> exists path :: Parse(path) == p
  {
    if AllWritable(p) {
      ParseOfPrint(p);
    }
    if path :| Parse(path) == p {
      CollectedAreWritable(path, 0);
    }
  }

  // ---------- texts that are not written so ----------

  /** An empty key between dots yields nothing, nor does a dot at the end. */
  lemma EmptyKeysAreSkipped(path: string, pos: nat)
    requires pos < |path| && path[pos] == '.'
    ensures pos + 1 == |path| ==> Collect(path, pos) == Collected([], false)
    ensures pos + 1 < |path| && path[pos + 1] == '.' ==> Collect(path, pos) == Collect(path, pos + 1)
  {}

  /** A closed bracket whose text is no index yields nothing: collecting goes on behind it. */
  lemma BadIndexIsSkipped(path: string, pos: nat, junk: string)
    requires pos + |junk| + 2 <= |path| && path[pos..pos + |junk| + 2] == "[" + junk + "]"
    requires Free(junk, ']') && Decimal.ParseUnsigned(junk) == None
    ensures Collect(path, pos) == Collect(path, pos + |junk| + 2)
    ensures pos > 0 && path[pos - 1] == '.' ==> Collect(path, pos - 1) == Collect(path, pos + |junk| + 2)
  {
    hide KeyEnd, Find, Decimal.ParseBelow;
    BracketAt(path, pos, junk);
    assert Activate(path, pos) == Again(pos + |junk| + 2);
    if pos > 0 && path[pos - 1] == '.' {
      assert Activate(path, pos - 1) == Again(pos + |junk| + 2);
    }
  }

  lemma BracketAt(path: string, pos: nat, text: string)
    requires pos + |text| + 2 <= |path| && path[pos..pos + |text| + 2] == "[" + text + "]" && Free(text, ']')
    ensures path[pos] == '[' && Find(path, pos, ']') == pos + |text| + 1 && path[pos + 1..pos + |text| + 1] == text
  {
    var close := pos + |text| + 1;
    var whole := path[pos..close + 1];
    assert path[pos] == whole[0] && path[close] == whole[|whole| - 1];
    assert path[pos + 1..close] == whole[1..|whole| - 1] == text;
    forall j | pos <= j < close ensures path[j] != ']' {
      if j > pos {
        assert path[j] == text[j - pos - 1];
      }
    }
    FindIs(path, pos, ']', close);
  }

  // ---------- the iterator ----------

  class PathParser {
    const path: string
    var pos: nat

    constructor (path: string)
      ensures this.path == path && pos == 0
    {
      this.path := path;
      pos := 0;
    }

    /** Rust's `next`: advances `pos` as it goes. A self-call from an unclosed
      * '[' would never return; the method reports it as Stuck. */
    method Advance() returns (item: Item)
      modifies this`pos
      ensures (item, pos) == Next(path, old(pos))
      decreases |path| - pos
    {
      hide Find, KeyEnd, Decimal.ParseBelow;
      var entry := pos;
      if pos >= |path| {
        return End;
      }
      var start := if path[pos] == '.' then pos + 1 else pos;
      if start == |path| {
        return End;
      }
      pos := start;
      if path[start] == '[' {
        var close := Find(path, start, ']');
        if close < |path| {
          pos := close + 1;
          var index := Decimal.ParseUnsigned(path[start + 1..close]);
          if index.Some? {
            assert Activate(path, entry) == Yield(Index(index.value), pos);
            return Segment(Index(index.value));
          }
        }
      }
      var end := KeyEnd(path, start);
      if end > start {
        pos := end;
        assert Activate(path, entry) == Yield(Key(path[start..end]), pos);
        return Segment(Key(path[start..end]));
      }
      assert Activate(path, entry) == Again(pos);
      if pos == entry {
        return Stuck;
      }
      item := Advance();
    }
  }
}
